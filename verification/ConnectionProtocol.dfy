/** The output side of a TCP connection as a state machine: what each callback and
    each queued functor does to the connection, with the kernel free to accept any
    part of a write or to refuse it. The theorems are about every run. */
module ConnectionProtocol {
  import opened Basics

  datatype State = Disconnected | Connecting | Connected | Disconnecting

  /** Work queued to the connection's loop, in the order it was queued. */
  datatype Functor =
    | SendF(payload: seq<byte>)
    | ShutdownF
    | WriteCompleteF
    | HighWaterF(buffered: nat)

  /** The outcome of one ::write. */
  datatype WriteResult = Wrote(n: nat) | WouldBlock | Pipe | Reset | OtherError

  /** Callbacks the server installed, and the high-water mark. */
  datatype Config = Config(onWriteComplete: bool, onHighWater: bool, mark: nat)

  /** `output` is outputBuffer_'s readable part; `wire` and `writeClosed` belong to the
      socket: the bytes the kernel took, and whether SHUT_WR was issued. `registered` says
      that the poller knows the channel. `tested` are the payloads of other threads inside
      send() that have seen kConnected and not yet queued their functor; `owed` is the same
      for a shutdown() that has set kDisconnecting. */
  datatype Conn = Conn(
    state: State,
    reading: bool,
    writing: bool,
    registered: bool,
    output: seq<byte>,
    wire: seq<byte>,
    writeClosed: bool,
    tested: multiset<seq<byte>>,
    owed: bool,
    pending: seq<Functor>,
    config: Config)

  function Init(config: Config): Conn {
    Conn(Connecting, false, false, false, [], [], false, multiset{}, false, [], config)
  }

  /** The kernel takes at most what it was given, and refuses data once the write
      side is shut. */
  ghost predicate KernelAllows(c: Conn, len: nat, k: WriteResult) {
    && (k.Wrote? ==> k.n <= len)
    && (c.writeClosed && len > 0 ==> k.Pipe? || k.Reset?)
  }

  function Queue(c: Conn, f: Functor): Conn {
    c.(pending := c.pending + [f])
  }

  // ---- The operations ----

  function BufferRest(c: Conn, rest: seq<byte>): Conn {
    var total := |c.output| + |rest|;
    var notified :=
      if total >= c.config.mark && |c.output| < c.config.mark && c.config.onHighWater
      then Queue(c, HighWaterF(total)) else c;
    notified.(output := c.output + rest, writing := true, registered := c.registered || !c.writing)
  }

  function SendInLoop(c: Conn, data: seq<byte>, k: WriteResult): Conn
    requires k.Wrote? ==> k.n <= |data|
  {
    if c.state == Disconnected then c
    else if !c.writing && c.output == [] then
      match k
      case Wrote(n) =>
        var sent := c.(wire := c.wire + data[..n]);
        if n == |data| then
          if c.config.onWriteComplete then Queue(sent, WriteCompleteF) else sent
        else BufferRest(sent, data[n..])
      case Pipe => c
      case Reset => c
      case WouldBlock => if data == [] then c else BufferRest(c, data)
      case OtherError => if data == [] then c else BufferRest(c, data)
    else if data == [] then c
    else BufferRest(c, data)
  }

  function ShutdownInLoop(c: Conn): Conn {
    if !c.writing then c.(writeClosed := true) else c
  }

  /** send() in the loop's own thread. */
  function SendHere(c: Conn, data: seq<byte>, k: WriteResult): Conn
    requires k.Wrote? ==> k.n <= |data|
  {
    if c.state == Connected then SendInLoop(c, data, k) else c
  }

  /** send() in another thread: first the state is tested, later the functor is queued. */
  function SendTest(c: Conn, data: seq<byte>): Conn {
    if c.state == Connected then c.(tested := c.tested + multiset{data}) else c
  }

  function SendPush(c: Conn, data: seq<byte>): Conn {
    Queue(c.(tested := c.tested - multiset{data}), SendF(data))
  }

  /** shutdown(): the state is tested and set; another thread queues its functor later. */
  function Shutdown(c: Conn, inLoop: bool): Conn {
    if c.state != Connected then c
    else if inLoop then ShutdownInLoop(c.(state := Disconnecting))
    else c.(state := Disconnecting, owed := true)
  }

  function ShutdownPush(c: Conn): Conn {
    Queue(c.(owed := false), ShutdownF)
  }

  function HandleWrite(c: Conn, k: WriteResult): Conn
    requires k.Wrote? ==> k.n <= |c.output|
  {
    if c.writing && k.Wrote? && k.n > 0 then
      var drained := c.(wire := c.wire + c.output[..k.n], output := c.output[k.n..]);
      if drained.output == [] then
        var quiet := drained.(writing := false, registered := true);
        var told := if c.config.onWriteComplete then Queue(quiet, WriteCompleteF) else quiet;
        if c.state == Disconnecting then ShutdownInLoop(told) else told
      else drained
    else c
  }

  function HandleClose(c: Conn): Conn {
    c.(state := Disconnected, reading := false, writing := false, registered := true)
  }

  function ConnectEstablished(c: Conn): Conn {
    c.(state := Connected, reading := true, registered := true)
  }

  /** Whatever the state, the channel leaves the poller. */
  function ConnectDestroyed(c: Conn): Conn {
    var closed := if c.state == Connected then HandleClose(c) else c;
    closed.(registered := false)
  }

  /** Runs the oldest queued functor. The two notifications call user code only. */
  function RunFunctor(c: Conn, k: WriteResult): Conn
    requires c.pending != []
    requires c.pending[0].SendF? && k.Wrote? ==> k.n <= |c.pending[0].payload|
  {
    var rest := c.(pending := c.pending[1..]);
    match c.pending[0]
    case SendF(data) => SendInLoop(rest, data, k)
    case ShutdownF => ShutdownInLoop(rest)
    case WriteCompleteF => rest
    case HighWaterF(_) => rest
  }

  // ---- Runs ----

  datatype Event =
    | Establish
    | SendCall(data: seq<byte>, k: WriteResult)
    | SendTested(data: seq<byte>)
    | SendPushed(data: seq<byte>)
    | ShutdownCall(inLoop: bool)
    | ShutdownPushed
    | LoopFunctor(k: WriteResult)
    | Writable(k: WriteResult)
    | Close
    | Destroy

  ghost predicate Enabled(c: Conn, e: Event) {
    match e
    case Establish => c.state == Connecting
    case SendCall(data, k) => KernelAllows(c, |data|, k)
    case SendPushed(data) => data in c.tested
    case ShutdownPushed => c.owed
    case LoopFunctor(k) =>
      c.pending != [] && (c.pending[0].SendF? ==> KernelAllows(c, |c.pending[0].payload|, k))
    case Writable(k) => KernelAllows(c, |c.output|, k)
    case _ => true
  }

  ghost function Step(c: Conn, e: Event): Conn
    requires Enabled(c, e)
  {
    match e
    case Establish => ConnectEstablished(c)
    case SendCall(data, k) => SendHere(c, data, k)
    case SendTested(data) => SendTest(c, data)
    case SendPushed(data) => SendPush(c, data)
    case ShutdownCall(inLoop) => Shutdown(c, inLoop)
    case ShutdownPushed => ShutdownPush(c)
    case LoopFunctor(k) => RunFunctor(c, k)
    case Writable(k) => HandleWrite(c, k)
    case Close => HandleClose(c)
    case Destroy => ConnectDestroyed(c)
  }

  ghost predicate Legal(c: Conn, es: seq<Event>)
    decreases |es|
  {
    es == [] || (Enabled(c, es[0]) && Legal(Step(c, es[0]), es[1..]))
  }

  ghost function Exec(c: Conn, es: seq<Event>): Conn
    requires Legal(c, es)
    decreases |es|
  {
    if es == [] then c else Exec(Step(c, es[0]), es[1..])
  }

  /** The payload that an event hands to sendInLoop, if any. */
  ghost function Offered(c: Conn, e: Event): seq<byte> {
    match e
    case SendCall(data, _) => if c.state == Connected then data else []
    case LoopFunctor(_) => if c.pending != [] && c.pending[0].SendF? then c.pending[0].payload else []
    case _ => []
  }

  /** sendInLoop refuses when disconnected, and drops the payload when a direct write
      reports a broken connection. */
  ghost predicate Refused(c: Conn, e: Event) {
    || c.state == Disconnected
    || (!c.writing && c.output == [] &&
        match e
        case SendCall(_, k) => k.Pipe? || k.Reset?
        case LoopFunctor(k) => k.Pipe? || k.Reset?
        case _ => false)
  }

  ghost function AcceptedBy(c: Conn, e: Event): seq<byte> {
    if Refused(c, e) then [] else Offered(c, e)
  }

  /** All payloads sendInLoop accepted during a run, in order. */
  ghost function Accepted(c: Conn, es: seq<Event>): seq<byte>
    requires Legal(c, es)
    decreases |es|
  {
    if es == [] then [] else AcceptedBy(c, es[0]) + Accepted(Step(c, es[0]), es[1..])
  }

  // ---- What every step keeps ----

  /** While the connection is not closed, write interest is on exactly when bytes are
      buffered, and a requested shutdown is done, awaiting the drain, queued or about to
      be queued. */
  ghost predicate Inv(c: Conn) {
    && (c.state != Disconnected ==> (c.writing <==> c.output != []))
    && (c.state == Disconnected ==> !c.writing)
    && (c.state == Connecting ==> c.output == [] && c.pending == [] && c.tested == multiset{})
    && (c.state == Disconnecting ==> c.writeClosed || c.output != [] || c.owed || ShutdownF in c.pending)
    && (c.writeClosed || c.owed || ShutdownF in c.pending ==> c.state == Disconnecting || c.state == Disconnected)
    && (c.writeClosed && c.state == Disconnecting ==> c.output == [])
  }

  /** From c to n the invariant is kept and exactly these bytes are added to wire and buffer. */
  ghost predicate Moves(c: Conn, n: Conn, bytes: seq<byte>) {
    Inv(n) && n.config == c.config && n.wire + n.output == c.wire + c.output + bytes
  }

  lemma BufferRestIs(c: Conn, rest: seq<byte>)
    ensures var n := BufferRest(c, rest);
      && n.wire == c.wire && n.output == c.output + rest && n.writing && n.state == c.state && n.config == c.config
      && n.writeClosed == c.writeClosed && n.tested == c.tested && n.owed == c.owed
      && (ShutdownF in n.pending <==> ShutdownF in c.pending)
  {
  }

  lemma BufferRestPushes(c: Conn, rest: seq<byte>)
    ensures var n := BufferRest(c, rest);
      var crosses := |c.output| < c.config.mark <= |n.output| && c.config.onHighWater;
      n.output == c.output + rest &&
      n.pending == if crosses then c.pending + [HighWaterF(|c.output| + |rest|)] else c.pending
  {
  }

  lemma SendInLoopKeepsInv(c: Conn, data: seq<byte>, k: WriteResult)
    requires Inv(c) && KernelAllows(c, |data|, k) && c.state != Connecting
    ensures Inv(SendInLoop(c, data, k))
  {
    hide BufferRest;
    BufferRestIs(c, data);
    if k.Wrote? { BufferRestIs(c.(wire := c.wire + data[..k.n]), data[k.n..]); }
  }

  lemma SendInLoopMovesBytes(c: Conn, data: seq<byte>, k: WriteResult)
    requires k.Wrote? ==> k.n <= |data|
    ensures SendInLoop(c, data, k).wire + SendInLoop(c, data, k).output == c.wire + c.output +
      (if c.state == Disconnected || (!c.writing && c.output == [] && (k.Pipe? || k.Reset?)) then [] else data)
    ensures SendInLoop(c, data, k).config == c.config
  {
    hide BufferRest;
    BufferRestIs(c, data);
    assert c.wire + (c.output + data) == c.wire + c.output + data;
    if k.Wrote? {
      BufferRestIs(c.(wire := c.wire + data[..k.n]), data[k.n..]);
      assert data[..k.n] + data[k.n..] == data;
      assert c.wire + data[..k.n] + ([] + data[k.n..]) == c.wire + [] + data;
    }
  }

  lemma SendKeeps(c: Conn, data: seq<byte>, k: WriteResult)
    requires Inv(c) && KernelAllows(c, |data|, k)
    ensures Moves(c, SendHere(c, data, k), AcceptedBy(c, SendCall(data, k)))
  {
    hide SendInLoop;
    if c.state == Connected {
      SendInLoopKeepsInv(c, data, k);
      SendInLoopMovesBytes(c, data, k);
    }
  }

  lemma SendTestKeeps(c: Conn, data: seq<byte>)
    requires Inv(c)
    ensures Moves(c, SendTest(c, data), [])
  {
  }

  lemma SendPushKeeps(c: Conn, data: seq<byte>)
    requires Inv(c) && data in c.tested
    ensures Moves(c, SendPush(c, data), [])
  {
  }

  lemma ShutdownKeeps(c: Conn, inLoop: bool)
    requires Inv(c)
    ensures Moves(c, Shutdown(c, inLoop), [])
  {
  }

  lemma ShutdownPushKeeps(c: Conn)
    requires Inv(c) && c.owed
    ensures Moves(c, ShutdownPush(c), [])
  {
    assert ShutdownPush(c).pending[|c.pending|] == ShutdownF;
  }

  lemma HandleWriteKeeps(c: Conn, k: WriteResult)
    requires Inv(c) && KernelAllows(c, |c.output|, k)
    ensures Moves(c, HandleWrite(c, k), [])
  {
    if k.Wrote? { assert c.output == c.output[..k.n] + c.output[k.n..]; }
  }

  lemma PopKeepsInv(c: Conn)
    requires Inv(c) && c.pending != [] && c.pending[0] != ShutdownF
    ensures Inv(c.(pending := c.pending[1..]))
  {
    assert c.pending == [c.pending[0]] + c.pending[1..];
  }

  lemma RunFunctorKeeps(c: Conn, k: WriteResult)
    requires Inv(c) && Enabled(c, LoopFunctor(k))
    ensures Moves(c, RunFunctor(c, k), AcceptedBy(c, LoopFunctor(k)))
  {
    hide SendInLoop;
    var rest := c.(pending := c.pending[1..]);
    match c.pending[0] {
      case SendF(data) =>
        PopKeepsInv(c);
        SendInLoopKeepsInv(rest, data, k);
        SendInLoopMovesBytes(rest, data, k);
      case ShutdownF => assert c.pending == [c.pending[0]] + c.pending[1..];
      case _ => PopKeepsInv(c);
    }
  }

  lemma LifeKeeps(c: Conn)
    requires Inv(c)
    ensures Moves(c, HandleClose(c), []) && Moves(c, ConnectDestroyed(c), [])
    ensures c.state == Connecting ==> Moves(c, ConnectEstablished(c), [])
  {
  }

  /** One step keeps the invariant and moves exactly the accepted bytes. */
  lemma StepKeeps(c: Conn, e: Event)
    requires Inv(c) && Enabled(c, e)
    ensures Inv(Step(c, e)) && Step(c, e).config == c.config
    ensures Step(c, e).wire + Step(c, e).output == c.wire + c.output + AcceptedBy(c, e)
  {
    hide SendHere, SendTest, SendPush, Shutdown, ShutdownPush, RunFunctor, HandleWrite, HandleClose,
      ConnectDestroyed, ConnectEstablished, Inv;
    match e
    case SendCall(data, k) => SendKeeps(c, data, k);
    case SendTested(data) => SendTestKeeps(c, data);
    case SendPushed(data) => SendPushKeeps(c, data);
    case ShutdownCall(inLoop) => ShutdownKeeps(c, inLoop);
    case ShutdownPushed => ShutdownPushKeeps(c);
    case LoopFunctor(k) => RunFunctorKeeps(c, k);
    case Writable(k) => HandleWriteKeeps(c, k);
    case _ => LifeKeeps(c);
  }

  /** In every run the bytes on the wire followed by the buffered bytes are the
      accepted payloads in order, and the shutdown bookkeeping holds. */
  lemma {:induction false} EveryRunKeepsOrder(c: Conn, es: seq<Event>)
    requires Inv(c) && Legal(c, es)
    ensures Inv(Exec(c, es))
    ensures Exec(c, es).wire + Exec(c, es).output == c.wire + c.output + Accepted(c, es)
    decreases |es|
  {
    hide Step, Enabled, AcceptedBy, Inv;
    if es != [] {
      var next := Step(c, es[0]);
      StepKeeps(c, es[0]);
      EveryRunKeepsOrder(next, es[1..]);
      var a, b := AcceptedBy(c, es[0]), Accepted(next, es[1..]);
      assert c.wire + c.output + a + b == c.wire + c.output + (a + b);
    }
  }

  /** The same from a fresh connection: the wire is a prefix of what was accepted. */
  lemma WireIsPrefixOfAccepted(config: Config, es: seq<Event>)
    requires Legal(Init(config), es)
    ensures var c := Exec(Init(config), es);
      && c.wire + c.output == Accepted(Init(config), es)
      && c.wire <= Accepted(Init(config), es)
      && Inv(c)
  {
    EveryRunKeepsOrder(Init(config), es);
  }

  // ---- SHUT_WR ----

  /** Exactly when SHUT_WR is early: a step issues it with accepted bytes still buffered
      if and only if the connection was already closed with bytes left. */
  lemma ShutWrEarlyExactlyWhenClosed(c: Conn, e: Event)
    requires Inv(c) && Enabled(c, e)
    requires !c.writeClosed && Step(c, e).writeClosed
    ensures Step(c, e).output != [] <==> c.state == Disconnected && c.output != []
  {
    StepKeeps(c, e);
  }

  /** Once the write side is shut no step buffers, sends or accepts a byte. */
  lemma NothingMovesAfterShutWr(c: Conn, e: Event)
    requires Inv(c) && Enabled(c, e) && c.writeClosed
    ensures Step(c, e).writeClosed
    ensures Step(c, e).wire == c.wire && Step(c, e).output == c.output && AcceptedBy(c, e) == []
  {
    StepKeeps(c, e);
  }

  lemma {:induction false} NothingAcceptedAfterShutWr(c: Conn, es: seq<Event>)
    requires Inv(c) && Legal(c, es) && c.writeClosed
    ensures Accepted(c, es) == []
    ensures Exec(c, es).wire == c.wire && Exec(c, es).output == c.output
    decreases |es|
  {
    hide Step, Enabled, AcceptedBy, Inv;
    if es != [] {
      StepKeeps(c, es[0]);
      NothingMovesAfterShutWr(c, es[0]);
      NothingAcceptedAfterShutWr(Step(c, es[0]), es[1..]);
    }
  }

  lemma Prepend(c: Conn, e: Event, es: seq<Event>)
    requires Enabled(c, e) && Legal(Step(c, e), es)
    ensures Legal(c, [e] + es)
    ensures Exec(c, [e] + es) == Exec(Step(c, e), es)
    ensures Accepted(c, [e] + es) == AcceptedBy(c, e) + Accepted(Step(c, e), es)
  {
    assert ([e] + es)[1..] == es;
  }

  /** One byte is buffered and a shutdown from another thread is queued. */
  ghost function AwaitingShutdown(): Conn {
    Init(Config(false, false, 0)).(state := Disconnecting, reading := true, writing := true, registered := true,
                                   output := [97], pending := [ShutdownF])
  }

  lemma EarlyAfterClose() returns (tail: seq<Event>)
    ensures Legal(AwaitingShutdown(), tail)
    ensures Exec(AwaitingShutdown(), tail).writeClosed && Exec(AwaitingShutdown(), tail).output == [97]
    ensures Exec(AwaitingShutdown(), tail).wire == [] && Accepted(AwaitingShutdown(), tail) == []
  {
    var run := LoopFunctor(WouldBlock);
    Prepend(HandleClose(AwaitingShutdown()), run, []);
    Prepend(AwaitingShutdown(), Close, [run] + []);
    tail := [Close] + ([run] + []);
  }

  /** SHUT_WR with bytes still buffered does happen: a shutdown queued by another
      thread runs after the peer has closed the connection. */
  lemma ShutWrCanBeEarly() returns (c0: Conn, es: seq<Event>)
    ensures c0 == Init(Config(false, false, 0)) && Legal(c0, es)
    ensures Exec(c0, es).writeClosed && Exec(c0, es).output != []
    ensures Exec(c0, es).wire != Accepted(c0, es)
  {
    c0 := Init(Config(false, false, 0));
    var send, shut := SendCall([97], WouldBlock), ShutdownCall(false);
    var tail := EarlyAfterClose();
    var c1 := c0.(state := Connected, reading := true, registered := true);
    assert c1 == Step(c0, Establish);
    var c2 := c1.(output := [97], writing := true);
    assert c2 == Step(c1, send);
    var c3 := c2.(state := Disconnecting, owed := true);
    assert c3 == Step(c2, shut);
    assert Step(c3, ShutdownPushed) == AwaitingShutdown();
    Prepend(c3, ShutdownPushed, tail);
    Prepend(c2, shut, [ShutdownPushed] + tail);
    assert Accepted(c2, [shut] + ([ShutdownPushed] + tail)) == [];
    Prepend(c1, send, [shut] + ([ShutdownPushed] + tail));
    assert Accepted(c1, [send] + ([shut] + ([ShutdownPushed] + tail))) == [97];
    Prepend(c0, Establish, [send] + ([shut] + ([ShutdownPushed] + tail)));
    es := [Establish] + ([send] + ([shut] + ([ShutdownPushed] + tail)));
  }

  // ---- Payloads lost to a shutdown ----

  /** No payload is ever offered to a socket that is shut but not closed. */
  ghost predicate NoneOfferedAfterShutWr(c: Conn, es: seq<Event>)
    requires Legal(c, es)
    decreases |es|
  {
    es == [] ||
    ((c.writeClosed && c.state != Disconnected ==> Offered(c, es[0]) == []) &&
     NoneOfferedAfterShutWr(Step(c, es[0]), es[1..]))
  }

  /** Some continuation loses a payload that way. */
  ghost predicate CanLose(c: Conn) {
    exists es :: Legal(c, es) && !NoneOfferedAfterShutWr(c, es)
  }

  /** The payloads queued, empty ones aside. */
  ghost function Sends(fs: seq<Functor>): nat {
    if fs == [] then 0 else (if fs[0].SendF? && fs[0].payload != [] then 1 else 0) + Sends(fs[1..])
  }

  /** A queued shutdown comes before the first queued payload. */
  ghost predicate ShutsFirst(fs: seq<Functor>) {
    fs != [] && (fs[0].ShutdownF? || (!(fs[0].SendF? && fs[0].payload != []) && ShutsFirst(fs[1..])))
  }

  ghost predicate HasText(payloads: multiset<seq<byte>>) {
    exists p :: p in payloads && p != []
  }

  /** A shutdown is under way and a payload may still come too late. */
  ghost predicate AtRisk(c: Conn) {
    || HasText(c.tested)
    || Sends(c.pending) >= 2
    || (Sends(c.pending) == 1 && (c.writeClosed || c.output != [] || ShutsFirst(c.pending)))
  }

  lemma {:induction false} PushCounts(fs: seq<Functor>, f: Functor)
    ensures Sends(fs + [f]) == Sends(fs) + if f.SendF? && f.payload != [] then 1 else 0
    ensures ShutsFirst(fs + [f]) <==> ShutsFirst(fs) || (Sends(fs) == 0 && f.ShutdownF?)
    decreases |fs|
  {
    if fs == [] {
      assert fs + [f] == [f] && [f][1..] == [];
    } else {
      PushCounts(fs[1..], f);
      assert (fs + [f])[1..] == fs[1..] + [f];
    }
  }

  lemma {:induction false} QueuedShutsFirst(fs: seq<Functor>)
    ensures ShutdownF in fs && Sends(fs) == 0 ==> ShutsFirst(fs)
    ensures ShutsFirst(fs) ==> ShutdownF in fs
    decreases |fs|
  {
    if fs != [] { QueuedShutsFirst(fs[1..]); }
  }

  lemma StepLoses(c: Conn, e: Event)
    requires Enabled(c, e) && CanLose(Step(c, e))
    ensures CanLose(c)
  {
    hide Step, Enabled, Offered;
    var n := Step(c, e);
    var es :| Legal(n, es) && !NoneOfferedAfterShutWr(n, es);
    assert ([e] + es)[1..] == es;
    assert Legal(c, [e] + es) && !NoneOfferedAfterShutWr(c, [e] + es);
  }

  /** The payload at the head of the queue is lost if the socket is already shut. */
  lemma HeadIsLost(c: Conn)
    requires c.writeClosed && c.state == Disconnecting
    requires c.pending != [] && c.pending[0].SendF? && c.pending[0].payload != []
    ensures CanLose(c)
  {
    var es := [LoopFunctor(Pipe)];
    assert es[1..] == [];
    assert Legal(c, es) && !NoneOfferedAfterShutWr(c, es);
  }

  /** Functors that send nothing and do not shut change only the queue. */
  lemma QuietFunctor(c: Conn)
    requires c.pending != [] && !c.pending[0].ShutdownF? && !(c.pending[0].SendF? && c.pending[0].payload != [])
    ensures Enabled(c, LoopFunctor(Pipe)) && Step(c, LoopFunctor(Pipe)) == c.(pending := c.pending[1..])
  {
  }

  ghost predicate Closing(c: Conn) {
    Inv(c) && c.state == Disconnecting
  }

  lemma {:induction false} LostWhenShut(c: Conn)
    requires Closing(c) && c.writeClosed && Sends(c.pending) >= 1
    ensures CanLose(c)
    decreases |c.pending|
  {
    var f := c.pending[0];
    if f.SendF? && f.payload != [] {
      HeadIsLost(c);
    } else {
      var run := LoopFunctor(Pipe);
      if !f.ShutdownF? { QuietFunctor(c); }
      assert Step(c, run) == c.(pending := c.pending[1..]);
      LostWhenShut(Step(c, run));
      StepLoses(c, run);
    }
  }

  /** Draining the buffer shuts the socket. */
  lemma DrainShuts(c: Conn)
    requires Closing(c) && !c.writeClosed && c.output != []
    ensures var e := Writable(Wrote(|c.output|));
      Enabled(c, e) && Closing(Step(c, e)) && Step(c, e).writeClosed && Sends(Step(c, e).pending) == Sends(c.pending)
  {
    StepKeeps(c, Writable(Wrote(|c.output|)));
    PushCounts(c.pending, WriteCompleteF);
  }

  lemma LostWhenBuffered(c: Conn)
    requires Closing(c) && !c.writeClosed && c.output != [] && Sends(c.pending) >= 1
    ensures CanLose(c)
  {
    hide Step, Enabled, Inv;
    DrainShuts(c);
    LostWhenShut(Step(c, Writable(Wrote(|c.output|))));
    StepLoses(c, Writable(Wrote(|c.output|)));
  }

  /** A payload that would block is buffered. */
  lemma HeadIsBuffered(c: Conn)
    requires Closing(c) && !c.writeClosed && c.output == []
    requires c.pending != [] && c.pending[0].SendF? && c.pending[0].payload != []
    ensures var e := LoopFunctor(WouldBlock);
      && Enabled(c, e) && Closing(Step(c, e)) && !Step(c, e).writeClosed && Step(c, e).output != []
      && Sends(Step(c, e).pending) == Sends(c.pending) - 1
  {
    var e := LoopFunctor(WouldBlock);
    StepKeeps(c, e);
    PushCounts(c.pending[1..], HighWaterF(|c.pending[0].payload|));
  }

  lemma {:induction false} LostBehindAnother(c: Conn)
    requires Closing(c) && !c.writeClosed && c.output == []
    requires Sends(c.pending) >= 2 || (Sends(c.pending) == 1 && ShutsFirst(c.pending))
    ensures CanLose(c)
    decreases |c.pending|
  {
    var f := c.pending[0];
    var e := LoopFunctor(if f.SendF? && f.payload != [] then WouldBlock else Pipe);
    if f.SendF? && f.payload != [] {
      HeadIsBuffered(c);
      LostWhenBuffered(Step(c, e));
    } else if f.ShutdownF? {
      StepKeeps(c, e);
      LostWhenShut(Step(c, e));
    } else {
      QuietFunctor(c);
      StepKeeps(c, e);
      LostBehindAnother(Step(c, e));
    }
    StepLoses(c, e);
  }

  /** Once everything tested is queued the queue alone decides. */
  lemma QueueLoses(c: Conn)
    requires Closing(c) && Sends(c.pending) >= 1
    requires c.writeClosed || c.output != [] || Sends(c.pending) >= 2 || ShutsFirst(c.pending)
    ensures CanLose(c)
  {
    hide Inv;
    if c.writeClosed {
      LostWhenShut(c);
    } else if c.output != [] {
      LostWhenBuffered(c);
    } else {
      LostBehindAnother(c);
    }
  }

  /** A payload between its test and its push comes too late if the shutdown overtakes it. */
  lemma TestedIsLost(c: Conn, p: seq<byte>)
    requires Closing(c) && !c.owed && p in c.tested && p != []
    ensures CanLose(c)
  {
    var e := SendPushed(p);
    StepKeeps(c, e);
    PushCounts(c.pending, SendF(p));
    QueuedShutsFirst(c.pending);
    QueueLoses(Step(c, e));
    StepLoses(c, e);
  }

  lemma RiskLoses(c: Conn)
    requires Closing(c) && AtRisk(c)
    ensures CanLose(c)
  {
    if !HasText(c.tested) {
      QueueLoses(c);
    } else {
      var p :| p in c.tested && p != [];
      if c.owed {
        StepKeeps(c, ShutdownPushed);
        TestedIsLost(Step(c, ShutdownPushed), p);
        StepLoses(c, ShutdownPushed);
      } else {
        TestedIsLost(c, p);
      }
    }
  }

  /** Nothing is at risk, now or later. */
  ghost predicate Safe(c: Conn) {
    Inv(c) && (c.state == Disconnected || (c.state == Disconnecting && !AtRisk(c)))
  }

  lemma SafeOffersNothing(c: Conn, e: Event)
    requires Safe(c) && Enabled(c, e)
    ensures c.writeClosed && c.state != Disconnected ==> Offered(c, e) == []
  {
  }

  lemma SendIsSafe(c: Conn, k: WriteResult)
    requires Safe(c) && c.state == Disconnecting && Enabled(c, LoopFunctor(k)) && c.pending[0].SendF?
    ensures !AtRisk(RunFunctor(c, k))
  {
    assert k.Wrote? ==> k.n <= |c.pending[0].payload|;
    hide SendInLoop, Inv, Enabled;
    var rest, data := c.(pending := c.pending[1..]), c.pending[0].payload;
    SendInLoopPushes(rest, data, k);
    var now := SendInLoop(rest, data, k).pending;
    if now != rest.pending { PushCounts(rest.pending, now[|rest.pending|]); }
    SendInLoopLeaves(rest, data, k);
  }

  lemma RunIsSafe(c: Conn, k: WriteResult)
    requires Safe(c) && c.state == Disconnecting && Enabled(c, LoopFunctor(k))
    ensures !AtRisk(RunFunctor(c, k))
  {
    hide SendInLoop, Inv;
    if c.pending[0].SendF? { SendIsSafe(c, k); }
  }

  /** What sending does not touch. */
  lemma SendInLoopLeaves(c: Conn, data: seq<byte>, k: WriteResult)
    requires k.Wrote? ==> k.n <= |data|
    ensures var n := SendInLoop(c, data, k);
      n.writeClosed == c.writeClosed && n.tested == c.tested && (data == [] ==> n.output == c.output)
  {
    hide BufferRest;
    BufferRestIs(c, data);
    if k.Wrote? { BufferRestIs(c.(wire := c.wire + data[..k.n]), data[k.n..]); }
  }

  lemma DrainIsSafe(c: Conn, k: WriteResult)
    requires Safe(c) && c.state == Disconnecting && Enabled(c, Writable(k))
    ensures !AtRisk(HandleWrite(c, k))
  {
    PushCounts(c.pending, WriteCompleteF);
  }

  lemma PushIsSafe(c: Conn, data: seq<byte>)
    requires Safe(c) && c.state == Disconnecting && data in c.tested
    ensures !AtRisk(SendPush(c, data))
  {
    PushCounts(c.pending, SendF(data));
  }

  lemma ShutdownPushIsSafe(c: Conn)
    requires Safe(c) && c.state == Disconnecting && c.owed
    ensures !AtRisk(ShutdownPush(c))
  {
    PushCounts(c.pending, ShutdownF);
  }

  /** Calls that come too late for the state, and the end of the connection. */
  lemma OthersAreSafe(c: Conn, e: Event)
    requires Safe(c) && c.state == Disconnecting && Enabled(c, e)
    requires !e.LoopFunctor? && !e.Writable? && !e.SendPushed? && !e.ShutdownPushed?
    ensures Step(c, e).state == Disconnected || (Step(c, e).state == Disconnecting && !AtRisk(Step(c, e)))
  {
  }

  lemma DisconnectedStays(c: Conn, e: Event)
    requires c.state == Disconnected && Enabled(c, e)
    ensures Step(c, e).state == Disconnected
  {
  }

  lemma ClosingIsSafe(c: Conn, e: Event)
    requires Safe(c) && c.state == Disconnecting && Enabled(c, e)
    ensures Step(c, e).state == Disconnected || (Step(c, e).state == Disconnecting && !AtRisk(Step(c, e)))
  {
    if e.LoopFunctor? || e.Writable? || e.SendPushed? || e.ShutdownPushed? { KeepsState(c, e); }
    hide HandleWrite, RunFunctor, SendPush, ShutdownPush, SendHere, SendTest, Shutdown, HandleClose,
      ConnectDestroyed, AtRisk, Inv;
    match e
    case LoopFunctor(k) => RunIsSafe(c, k);
    case Writable(k) => DrainIsSafe(c, k);
    case SendPushed(data) => PushIsSafe(c, data);
    case ShutdownPushed => ShutdownPushIsSafe(c);
    case _ => OthersAreSafe(c, e);
  }

  lemma KeepsState(c: Conn, e: Event)
    requires Enabled(c, e) && (e.LoopFunctor? || e.Writable? || e.SendPushed? || e.ShutdownPushed?)
    ensures Step(c, e).state == c.state
  {
  }

  lemma SafeStays(c: Conn, e: Event)
    requires Safe(c) && Enabled(c, e)
    ensures Safe(Step(c, e))
  {
    hide Step, Enabled, AtRisk, Inv;
    StepKeeps(c, e);
    if c.state == Disconnected {
      DisconnectedStays(c, e);
    } else {
      ClosingIsSafe(c, e);
    }
  }

  lemma {:induction false} SafeLosesNothing(c: Conn, es: seq<Event>)
    requires Safe(c) && Legal(c, es)
    ensures NoneOfferedAfterShutWr(c, es)
    decreases |es|
  {
    hide Step, Enabled, Offered, Safe;
    if es != [] {
      SafeOffersNothing(c, es[0]);
      SafeStays(c, es[0]);
      SafeLosesNothing(Step(c, es[0]), es[1..]);
    }
  }

  /** During a shutdown a payload can be lost exactly when one is at risk. */
  lemma LosesExactlyWhenAtRisk(c: Conn)
    requires Inv(c) && c.state == Disconnecting
    ensures CanLose(c) <==> AtRisk(c)
  {
    if AtRisk(c) {
      RiskLoses(c);
    } else if CanLose(c) {
      var es :| Legal(c, es) && !NoneOfferedAfterShutWr(c, es);
      SafeLosesNothing(c, es);
    }
  }

  /** What a caller of shutdown() risks: another thread inside send(), two queued payloads,
      or a single one that a shutdown in the loop or a drain of the buffer overtakes. */
  ghost predicate ShutdownRisks(c: Conn, inLoop: bool) {
    || HasText(c.tested)
    || Sends(c.pending) >= 2
    || (Sends(c.pending) == 1 && (inLoop || c.output != []))
  }

  /** Exactly when calling shutdown() can cost a payload that send() had taken before. */
  lemma ShutdownLosesExactlyWhen(c: Conn, inLoop: bool)
    requires Inv(c) && c.state == Connected
    ensures CanLose(Shutdown(c, inLoop)) <==> ShutdownRisks(c, inLoop)
  {
    ShutdownKeeps(c, inLoop);
    QueuedShutsFirst(c.pending);
    LosesExactlyWhenAtRisk(Shutdown(c, inLoop));
  }

  /** It does happen, on every connection: a thread inside send() is overtaken by a shutdown
      in the loop. */
  lemma TakenPayloadCanBeLost(config: Config)
    ensures CanLose(Init(config))
  {
    var c0 := Init(config);
    var c1 := Step(c0, Establish);
    var c2 := Step(c1, SendTested([98]));
    assert [98] in c2.tested && Inv(c2);
    ShutdownLosesExactlyWhen(c2, true);
    StepLoses(c2, ShutdownCall(true));
    StepLoses(c1, SendTested([98]));
    StepLoses(c0, Establish);
  }

  /** No shutdown() of the run is called while it risks a payload. */
  ghost predicate ShutsDownSafely(c: Conn, es: seq<Event>)
    requires Legal(c, es)
    decreases |es|
  {
    es == [] ||
    ((es[0].ShutdownCall? && c.state == Connected ==> !ShutdownRisks(c, es[0].inLoop)) &&
     ShutsDownSafely(Step(c, es[0]), es[1..]))
  }

  lemma SafeShutdownStaysSafe(c: Conn, e: Event)
    requires Inv(c) && Enabled(c, e) && (c.state == Connecting || c.state == Connected)
    requires e.ShutdownCall? && c.state == Connected ==> !ShutdownRisks(c, e.inLoop)
    ensures Step(c, e).state == Connecting || Step(c, e).state == Connected || Safe(Step(c, e))
  {
    StepKeeps(c, e);
    QueuedShutsFirst(c.pending);
  }

  /** Then the whole run loses nothing. */
  lemma {:induction false} SafeShutdownsLoseNothing(c: Conn, es: seq<Event>)
    requires Inv(c) && Legal(c, es) && ShutsDownSafely(c, es) && (c.state == Connecting || c.state == Connected)
    ensures NoneOfferedAfterShutWr(c, es)
    decreases |es|
  {
    if es != [] {
      StepKeeps(c, es[0]);
      SafeShutdownStaysSafe(c, es[0]);
      assert !c.writeClosed;
      hide Step, Enabled, Offered, Safe, Inv;
      if Safe(Step(c, es[0])) {
        SafeLosesNothing(Step(c, es[0]), es[1..]);
      } else {
        SafeShutdownsLoseNothing(Step(c, es[0]), es[1..]);
      }
    }
  }

  // ---- Notifications ----

  ghost function CountHighWater(fs: seq<Functor>): nat {
    if fs == [] then 0 else CountHighWater(fs[..|fs| - 1]) + if fs[|fs| - 1].HighWaterF? then 1 else 0
  }

  ghost function CountWriteComplete(fs: seq<Functor>): nat {
    if fs == [] then 0
    else CountWriteComplete(fs[..|fs| - 1]) + if fs[|fs| - 1].WriteCompleteF? then 1 else 0
  }

  ghost predicate HighWaterFires(c: Conn, e: Event)
    requires Enabled(c, e)
  {
    CountHighWater(Step(c, e).pending) > CountHighWater(c.pending)
  }

  ghost predicate WriteCompleteFires(c: Conn, e: Event)
    requires Enabled(c, e)
  {
    CountWriteComplete(Step(c, e).pending) > CountWriteComplete(c.pending)
  }

  lemma {:induction false} CountsOfPop(fs: seq<Functor>)
    requires fs != []
    ensures CountHighWater(fs) == CountHighWater(fs[1..]) + if fs[0].HighWaterF? then 1 else 0
    ensures CountWriteComplete(fs) == CountWriteComplete(fs[1..]) + if fs[0].WriteCompleteF? then 1 else 0
    decreases |fs|
  {
    if |fs| > 1 {
      CountsOfPop(fs[..|fs| - 1]);
      assert fs[..|fs| - 1][1..] == fs[1..][..|fs| - 2];
    }
  }

  lemma CountsOfPush(fs: seq<Functor>, f: Functor)
    ensures CountHighWater(fs + [f]) == CountHighWater(fs) + if f.HighWaterF? then 1 else 0
    ensures CountWriteComplete(fs + [f]) == CountWriteComplete(fs) + if f.WriteCompleteF? then 1 else 0
  {
    assert (fs + [f])[..|fs|] == fs;
  }

  /** What a step can add to the queue: at most one functor, after popping at most one. */
  lemma QueueDelta(c: Conn, e: Event) returns (base: seq<Functor>)
    requires Inv(c) && Enabled(c, e)
    ensures base == if e.LoopFunctor? then c.pending[1..] else c.pending
    ensures Step(c, e).pending == base
      || (|Step(c, e).pending| == |base| + 1 && Step(c, e).pending == base + [Step(c, e).pending[|base|]])
    ensures e.LoopFunctor? && (c.pending[0].HighWaterF? || c.pending[0].WriteCompleteF?) ==> Step(c, e).pending == base
  {
    base := if e.LoopFunctor? then c.pending[1..] else c.pending;
    match e
    case SendCall(data, k) =>
      if c.state == Connected { SendInLoopPushes(c, data, k); }
    case LoopFunctor(k) =>
      if c.pending[0].SendF? { SendInLoopPushes(c.(pending := c.pending[1..]), c.pending[0].payload, k); }
    case _ =>
  }

  lemma SendInLoopPushes(c: Conn, data: seq<byte>, k: WriteResult)
    requires k.Wrote? ==> k.n <= |data|
    ensures var now := SendInLoop(c, data, k).pending;
      now == c.pending || (|now| == |c.pending| + 1 && now == c.pending + [now[|c.pending|]])
  {
    hide BufferRest;
    BufferRestPushes(c, data);
    if k.Wrote? { BufferRestPushes(c.(wire := c.wire + data[..k.n]), data[k.n..]); }
  }

  /** A queue's counts grow exactly when the functor pushed last is of that kind. */
  lemma CountsTellPush(was: seq<Functor>, popped: bool, base: seq<Functor>, now: seq<Functor>)
    requires popped ==> was != []
    requires base == if popped then was[1..] else was
    requires now == base || (|now| == |base| + 1 && now == base + [now[|base|]])
    requires popped && (was[0].HighWaterF? || was[0].WriteCompleteF?) ==> now == base
    ensures CountHighWater(now) > CountHighWater(was) <==> |now| > |base| && now[|now| - 1].HighWaterF?
    ensures CountWriteComplete(now) > CountWriteComplete(was) <==> |now| > |base| && now[|now| - 1].WriteCompleteF?
  {
    if popped { CountsOfPop(was); }
    if now != base {
      CountsOfPush(base, now[|base|]);
    }
  }

  lemma FiresExactlyWhenPushed(c: Conn, e: Event)
    requires Inv(c) && Enabled(c, e)
    ensures HighWaterFires(c, e) <==>
      |Step(c, e).pending| > |c.pending| - (if e.LoopFunctor? then 1 else 0)
      && Step(c, e).pending[|Step(c, e).pending| - 1].HighWaterF?
    ensures WriteCompleteFires(c, e) <==>
      |Step(c, e).pending| > |c.pending| - (if e.LoopFunctor? then 1 else 0)
      && Step(c, e).pending[|Step(c, e).pending| - 1].WriteCompleteF?
  {
    var base := QueueDelta(c, e);
    hide Step, Enabled, Inv;
    CountsTellPush(c.pending, e.LoopFunctor?, base, Step(c, e).pending);
  }

  /** The high-water callback is queued exactly when a step takes the buffered length
      from below the mark to the mark or above. */
  lemma HighWaterExactlyOnCrossing(c: Conn, e: Event)
    requires Inv(c) && Enabled(c, e)
    ensures HighWaterFires(c, e) <==>
      c.config.onHighWater && |c.output| < c.config.mark <= |Step(c, e).output|
  {
    hide HighWaterFires, WriteCompleteFires, SendInLoop, HandleWrite, RunFunctor, Inv;
    FiresExactlyWhenPushed(c, e);
    match e
    case SendCall(data, k) =>
      if c.state == Connected { SendInLoopHighWater(c, data, k); }
    case LoopFunctor(k) => RunFunctorNotifies(c, k);
    case Writable(k) => HandleWriteShrinks(c, k);
    case _ =>
  }

  /** The functor pushed by a functor, if any. */
  lemma RunFunctorNotifies(c: Conn, k: WriteResult)
    requires c.pending != [] && (c.pending[0].SendF? && k.Wrote? ==> k.n <= |c.pending[0].payload|)
    ensures var n := RunFunctor(c, k);
      && ((|n.pending| >= |c.pending| && n.pending[|n.pending| - 1].HighWaterF?) <==>
          c.config.onHighWater && |c.output| < c.config.mark <= |n.output|)
      && (|n.pending| >= |c.pending| && n.pending[|n.pending| - 1].WriteCompleteF? ==> n.output == [])
  {
    hide SendInLoop;
    if c.pending[0].SendF? {
      var rest, data := c.(pending := c.pending[1..]), c.pending[0].payload;
      SendInLoopHighWater(rest, data, k);
      SendInLoopCompletes(rest, data, k);
    }
  }

  /** A drain never grows the buffer, and the one functor it may push says that all is out. */
  lemma HandleWriteShrinks(c: Conn, k: WriteResult)
    requires k.Wrote? ==> k.n <= |c.output|
    ensures var n := HandleWrite(c, k);
      && |n.output| <= |c.output| && |c.pending| <= |n.pending|
      && (|n.pending| > |c.pending| ==> n.pending[|n.pending| - 1] == WriteCompleteF && n.output == [])
  {
  }

  lemma SendInLoopHighWater(c: Conn, data: seq<byte>, k: WriteResult)
    requires k.Wrote? ==> k.n <= |data|
    ensures var n := SendInLoop(c, data, k);
      (|n.pending| > |c.pending| && n.pending[|n.pending| - 1].HighWaterF?) <==>
        c.config.onHighWater && |c.output| < c.config.mark <= |n.output|
  {
    hide BufferRest;
    BufferRestPushes(c, data);
    if k.Wrote? { BufferRestPushes(c.(wire := c.wire + data[..k.n]), data[k.n..]); }
  }

  /** The state after the first i events. */
  ghost function StateAt(c: Conn, es: seq<Event>, i: nat): Conn
    requires Legal(c, es) && i <= |es|
    decreases i
  {
    if i == 0 then c else StateAt(Step(c, es[0]), es[1..], i - 1)
  }

  /** The payloads accepted by the first i events. */
  ghost function AcceptedUpTo(c: Conn, es: seq<Event>, i: nat): seq<byte>
    requires Legal(c, es) && i <= |es|
    decreases i
  {
    if i == 0 then [] else AcceptedBy(c, es[0]) + AcceptedUpTo(Step(c, es[0]), es[1..], i - 1)
  }

  lemma {:induction false} StateAtKeeps(c: Conn, es: seq<Event>, i: nat)
    requires Inv(c) && Legal(c, es) && i <= |es|
    ensures Inv(StateAt(c, es, i)) && StateAt(c, es, i).config == c.config
    ensures StateAt(c, es, i).wire + StateAt(c, es, i).output == c.wire + c.output + AcceptedUpTo(c, es, i)
    decreases i
  {
    hide Step, AcceptedBy, Enabled, Inv;
    if i > 0 {
      var next := Step(c, es[0]);
      StepKeeps(c, es[0]);
      StateAtKeeps(next, es[1..], i - 1);
      var a, b := AcceptedBy(c, es[0]), AcceptedUpTo(next, es[1..], i - 1);
      assert c.wire + c.output + a + b == c.wire + c.output + (a + b);
    }
  }

  lemma {:induction false} StateAtNext(c: Conn, es: seq<Event>, i: nat)
    requires Legal(c, es) && i < |es|
    ensures Enabled(StateAt(c, es, i), es[i])
    ensures StateAt(c, es, i + 1) == Step(StateAt(c, es, i), es[i])
    decreases i
  {
    hide Step, Enabled;
    if i > 0 {
      StateAtNext(Step(c, es[0]), es[1..], i - 1);
    }
  }

  /** Between any two high-water notifications of a run the buffered length drops below
      the mark. */
  lemma HighWaterNeedsDip(c: Conn, es: seq<Event>, i: nat, j: nat) returns (k: nat)
    requires Inv(c) && Legal(c, es) && i < j < |es|
    requires Enabled(StateAt(c, es, i), es[i]) && HighWaterFires(StateAt(c, es, i), es[i])
    requires Enabled(StateAt(c, es, j), es[j]) && HighWaterFires(StateAt(c, es, j), es[j])
    ensures i + 1 < k <= j
    ensures |StateAt(c, es, i + 1).output| >= c.config.mark > |StateAt(c, es, k).output|
  {
    hide Step, Enabled, Inv, HighWaterFires, AcceptedUpTo;
    StateAtKeeps(c, es, i);
    StateAtKeeps(c, es, j);
    StateAtNext(c, es, i);
    StateAtNext(c, es, j);
    HighWaterExactlyOnCrossing(StateAt(c, es, i), es[i]);
    HighWaterExactlyOnCrossing(StateAt(c, es, j), es[j]);
    k := j;
  }

  /** A write-complete callback is queued only when every byte accepted so far is on
      the wire. */
  lemma WriteCompleteMeansAllOnWire(config: Config, es: seq<Event>, i: nat)
    requires Legal(Init(config), es) && i < |es|
    requires Enabled(StateAt(Init(config), es, i), es[i])
    requires WriteCompleteFires(StateAt(Init(config), es, i), es[i])
    ensures StateAt(Init(config), es, i + 1).output == []
    ensures StateAt(Init(config), es, i + 1).wire == AcceptedUpTo(Init(config), es, i + 1)
  {
    var c := Init(config);
    StateAtKeeps(c, es, i);
    StateAtKeeps(c, es, i + 1);
    StateAtNext(c, es, i);
    WriteCompleteDrains(StateAt(c, es, i), es[i]);
    var after := StateAt(c, es, i + 1);
    assert after.wire + after.output == after.wire && c.wire + c.output == [];
  }

  lemma WriteCompleteDrains(c: Conn, e: Event)
    requires Inv(c) && Enabled(c, e) && WriteCompleteFires(c, e)
    ensures Step(c, e).output == []
  {
    hide HighWaterFires, WriteCompleteFires, SendInLoop, HandleWrite, RunFunctor, Inv;
    FiresExactlyWhenPushed(c, e);
    match e
    case Writable(k) => HandleWriteShrinks(c, k);
    case SendCall(data, k) =>
      if c.state == Connected { SendInLoopCompletes(c, data, k); }
    case LoopFunctor(k) => RunFunctorNotifies(c, k);
    case _ =>
  }

  /** The payload is written whole and directly. */
  ghost predicate SentWhole(c: Conn, data: seq<byte>, k: WriteResult) {
    c.state != Disconnected && !c.writing && c.output == [] && k == Wrote(|data|)
  }

  lemma SendInLoopCompletesExactlyWhen(c: Conn, data: seq<byte>, k: WriteResult)
    requires k.Wrote? ==> k.n <= |data|
    ensures var n := SendInLoop(c, data, k);
      (|n.pending| > |c.pending| && n.pending[|n.pending| - 1].WriteCompleteF?) <==>
        c.config.onWriteComplete && SentWhole(c, data, k)
  {
    hide BufferRest;
    BufferRestPushes(c, data);
    if k.Wrote? { BufferRestPushes(c.(wire := c.wire + data[..k.n]), data[k.n..]); }
  }

  lemma HandleWriteCompletesExactlyWhen(c: Conn, k: WriteResult)
    requires Inv(c) && KernelAllows(c, |c.output|, k)
    ensures var n := HandleWrite(c, k);
      (|n.pending| > |c.pending| && n.pending[|n.pending| - 1].WriteCompleteF?) <==>
        c.config.onWriteComplete && c.writing && c.output != [] && n.output == []
  {
  }

  /** The write-complete callback is queued exactly when a payload goes out whole at once, or
      a drain takes the last buffered byte. */
  lemma WriteCompleteExactlyWhen(c: Conn, e: Event)
    requires Inv(c) && Enabled(c, e)
    ensures WriteCompleteFires(c, e) <==> c.config.onWriteComplete && CompletesBy(c, e)
  {
    hide HighWaterFires, WriteCompleteFires, SendInLoop, HandleWrite, Inv, SentWhole;
    FiresExactlyWhenPushed(c, e);
    match e
    case Writable(k) => HandleWriteCompletesExactlyWhen(c, k);
    case SendCall(data, k) =>
      if c.state == Connected { SendInLoopCompletesExactlyWhen(c, data, k); }
    case LoopFunctor(k) =>
      if c.pending[0].SendF? {
        SendInLoopCompletesExactlyWhen(c.(pending := c.pending[1..]), c.pending[0].payload, k);
      }
    case _ =>
  }

  ghost predicate CompletesBy(c: Conn, e: Event)
    requires Enabled(c, e)
  {
    match e
    case SendCall(data, k) => c.state == Connected && SentWhole(c, data, k)
    case LoopFunctor(k) =>
      c.pending[0].SendF? && SentWhole(c.(pending := c.pending[1..]), c.pending[0].payload, k)
    case Writable(_) => c.writing && c.output != [] && Step(c, e).output == []
    case _ => false
  }

  lemma SendInLoopCompletes(c: Conn, data: seq<byte>, k: WriteResult)
    requires k.Wrote? ==> k.n <= |data|
    ensures var n := SendInLoop(c, data, k);
      |n.pending| > |c.pending| && n.pending[|n.pending| - 1].WriteCompleteF? ==> n.output == []
  {
    hide BufferRest;
    BufferRestPushes(c, data);
    if k.Wrote? { BufferRestPushes(c.(wire := c.wire + data[..k.n]), data[k.n..]); }
  }
}
