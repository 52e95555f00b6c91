/** What becomes of the payloads that callers hand to send(): none is changed, doubled or
    made up between the call and sendInLoop, and the wire is made of nothing else. */
module SentPayloads {
  import opened Basics
  import opened ConnectionProtocol

  type Payload = seq<byte>

  /** The payload of a send() in another thread that saw kConnected. */
  ghost function Taken(c: Conn, e: Event): seq<Payload> {
    if e.SendTested? && c.state == Connected then [e.data] else []
  }

  /** The payload whose functor a thread queues. */
  ghost function Pushed(e: Event): seq<Payload> {
    if e.SendPushed? then [e.data] else []
  }

  /** The payload that a functor hands to sendInLoop. */
  ghost function Handed(c: Conn, e: Event): seq<Payload> {
    if e.LoopFunctor? && c.pending != [] && c.pending[0].SendF? then [c.pending[0].payload] else []
  }

  /** The payload of a send() in the loop thread that saw kConnected. */
  ghost function Direct(c: Conn, e: Event): seq<Payload> {
    if e.SendCall? && c.state == Connected then [e.data] else []
  }

  ghost function TakenIn(c: Conn, es: seq<Event>): seq<Payload>
    requires Legal(c, es)
    decreases |es|
  {
    if es == [] then [] else Taken(c, es[0]) + TakenIn(Step(c, es[0]), es[1..])
  }

  ghost function PushedIn(es: seq<Event>): seq<Payload> {
    if es == [] then [] else Pushed(es[0]) + PushedIn(es[1..])
  }

  ghost function HandedIn(c: Conn, es: seq<Event>): seq<Payload>
    requires Legal(c, es)
    decreases |es|
  {
    if es == [] then [] else Handed(c, es[0]) + HandedIn(Step(c, es[0]), es[1..])
  }

  ghost function DirectIn(c: Conn, es: seq<Event>): seq<Payload>
    requires Legal(c, es)
    decreases |es|
  {
    if es == [] then [] else Direct(c, es[0]) + DirectIn(Step(c, es[0]), es[1..])
  }

  /** The payloads queued, in order. */
  ghost function Queued(fs: seq<Functor>): seq<Payload> {
    if fs == [] then [] else (if fs[0].SendF? then [fs[0].payload] else []) + Queued(fs[1..])
  }

  lemma {:induction false} QueuedBehind(fs: seq<Functor>, f: Functor)
    ensures Queued(fs + [f]) == Queued(fs) + if f.SendF? then [f.payload] else []
    decreases |fs|
  {
    if fs == [] {
      assert fs + [f] == [f] && [f][1..] == [];
    } else {
      QueuedBehind(fs[1..], f);
      assert (fs + [f])[1..] == fs[1..] + [f];
    }
  }

  // ---- One step ----

  lemma RunFunctorMoves(c: Conn, k: WriteResult)
    requires Enabled(c, LoopFunctor(k))
    ensures RunFunctor(c, k).tested == c.tested
    ensures Handed(c, LoopFunctor(k)) + Queued(RunFunctor(c, k).pending) == Queued(c.pending)
  {
    hide SendInLoop;
    if c.pending[0].SendF? { SendInLoopSpares(c.(pending := c.pending[1..]), c.pending[0].payload, k); }
  }

  lemma SendHereSpares(c: Conn, data: seq<byte>, k: WriteResult)
    requires k.Wrote? ==> k.n <= |data|
    ensures SendHere(c, data, k).tested == c.tested && Queued(SendHere(c, data, k).pending) == Queued(c.pending)
  {
    hide SendInLoop, Queued;
    if c.state == Connected { SendInLoopSpares(c, data, k); }
  }

  /** A push moves one payload from the tested ones to the end of the queue, unchanged. */
  lemma StepMovesTested(c: Conn, e: Event)
    requires Enabled(c, e)
    ensures Step(c, e).tested + multiset(Pushed(e)) == c.tested + multiset(Taken(c, e))
  {
    hide SendHere, RunFunctor, HandleWrite, Queued;
    match e
    case SendCall(data, k) => SendHereSpares(c, data, k);
    case LoopFunctor(k) => RunFunctorMoves(c, k);
    case Writable(k) => HandleWriteSpares(c, k);
    case _ =>
  }

  lemma SendInLoopSpares(c: Conn, data: seq<byte>, k: WriteResult)
    requires k.Wrote? ==> k.n <= |data|
    ensures SendInLoop(c, data, k).tested == c.tested
    ensures Queued(SendInLoop(c, data, k).pending) == Queued(c.pending)
  {
    SendInLoopPushes(c, data, k);
    SendInLoopLeaves(c, data, k);
    SendInLoopNotifies(c, data, k);
    var now := SendInLoop(c, data, k).pending;
    hide SendInLoop, Queued;
    if now != c.pending { QueuedBehind(c.pending, now[|c.pending|]); }
  }

  lemma SendInLoopNotifies(c: Conn, data: seq<byte>, k: WriteResult)
    requires k.Wrote? ==> k.n <= |data|
    ensures var now := SendInLoop(c, data, k).pending; |now| > |c.pending| ==> !now[|now| - 1].SendF?
  {
    hide BufferRest;
    BufferRestPushes(c, data);
    if k.Wrote? { BufferRestPushes(c.(wire := c.wire + data[..k.n]), data[k.n..]); }
  }

  lemma HandleWriteSpares(c: Conn, k: WriteResult)
    requires k.Wrote? ==> k.n <= |c.output|
    ensures HandleWrite(c, k).tested == c.tested && Queued(HandleWrite(c, k).pending) == Queued(c.pending)
  {
    QueuedBehind(c.pending, WriteCompleteF);
    hide Queued;
  }

  /** The queue hands out at the front what was pushed at the end. */
  lemma StepMovesQueued(c: Conn, e: Event)
    requires Enabled(c, e)
    ensures Handed(c, e) + Queued(Step(c, e).pending) == Queued(c.pending) + Pushed(e)
  {
    match e
    case SendPushed(data) => QueuedBehind(c.pending, SendF(data));
    case ShutdownPushed => QueuedBehind(c.pending, ShutdownF);
    case SendCall(data, k) => hide SendHere, Queued; SendHereSpares(c, data, k);
    case LoopFunctor(k) => hide RunFunctor, Queued; RunFunctorMoves(c, k);
    case Writable(k) => hide HandleWrite, Queued; HandleWriteSpares(c, k);
    case _ =>
  }

  // ---- Every run ----

  /** Two balances in a row. */
  lemma Balance(a: multiset<Payload>, b: multiset<Payload>, c: multiset<Payload>,
                in1: multiset<Payload>, out1: multiset<Payload>, in2: multiset<Payload>, out2: multiset<Payload>)
    requires b + out1 == a + in1 && c + out2 == b + in2
    ensures c + (out1 + out2) == a + (in1 + in2)
  {
    assert c + (out1 + out2) == (c + out2) + out1;
    assert (b + in2) + out1 == (b + out1) + in2;
    assert (a + in1) + in2 == a + (in1 + in2);
  }

  lemma {:induction false} TestedIsConserved(c: Conn, es: seq<Event>)
    requires Legal(c, es)
    ensures Exec(c, es).tested + multiset(PushedIn(es)) == c.tested + multiset(TakenIn(c, es))
    decreases |es|
  {
    hide Step, Enabled, Pushed, Taken;
    if es != [] {
      var n := Step(c, es[0]);
      StepMovesTested(c, es[0]);
      TestedIsConserved(n, es[1..]);
      MultisetOfBoth(Pushed(es[0]), PushedIn(es[1..]));
      MultisetOfBoth(Taken(c, es[0]), TakenIn(n, es[1..]));
      Balance(c.tested, n.tested, Exec(n, es[1..]).tested, multiset(Taken(c, es[0])), multiset(Pushed(es[0])),
              multiset(TakenIn(n, es[1..])), multiset(PushedIn(es[1..])));
    }
  }

  lemma {:induction false} QueueIsFifo(c: Conn, es: seq<Event>)
    requires Legal(c, es)
    ensures HandedIn(c, es) + Queued(Exec(c, es).pending) == Queued(c.pending) + PushedIn(es)
    decreases |es|
  {
    hide Step, Enabled, Pushed, Handed, Queued;
    if es != [] {
      var n := Step(c, es[0]);
      StepMovesQueued(c, es[0]);
      QueueIsFifo(n, es[1..]);
      var h, q, p := Handed(c, es[0]), Queued(c.pending), Pushed(es[0]);
      var end := Queued(Exec(n, es[1..]).pending);
      Assoc(h, HandedIn(n, es[1..]), end);
      Assoc(h, Queued(n.pending), PushedIn(es[1..]));
      Assoc(q, p, PushedIn(es[1..]));
    }
  }

  /** Over every run of a fresh connection: each payload that send() took in another thread is
      still with its thread, queued, or was handed to sendInLoop, once and unchanged; and
      payloads are handed over in the order in which they were queued. */
  lemma TakenPayloadsAreConserved(config: Config, es: seq<Event>)
    requires Legal(Init(config), es)
    ensures var c := Exec(Init(config), es);
      && multiset(TakenIn(Init(config), es)) == c.tested + multiset(Queued(c.pending)) + multiset(HandedIn(Init(config), es))
      && HandedIn(Init(config), es) + Queued(c.pending) == PushedIn(es)
  {
    hide Step, Enabled, TakenIn, HandedIn, PushedIn;
    TestedIsConserved(Init(config), es);
    QueueIsFifo(Init(config), es);
    assert [] + PushedIn(es) == PushedIn(es);
    var c := Exec(Init(config), es);
    var h, q := HandedIn(Init(config), es), Queued(c.pending);
    MultisetOfBoth(h, q);
    assert c.tested + (multiset(h) + multiset(q)) == c.tested + multiset(q) + multiset(h);
    assert multiset{} + multiset(TakenIn(Init(config), es)) == multiset(TakenIn(Init(config), es));
  }

  // ---- The wire is made of payloads that callers gave ----

  /** The payloads that sendInLoop accepted, one by one. */
  ghost function AcceptedPayloads(c: Conn, es: seq<Event>): seq<Payload>
    requires Legal(c, es)
    decreases |es|
  {
    if es == [] then [] else AcceptedFrom(c, es[0]) + AcceptedPayloads(Step(c, es[0]), es[1..])
  }

  ghost function AcceptedFrom(c: Conn, e: Event): seq<Payload> {
    if Refused(c, e) then [] else Direct(c, e) + Handed(c, e)
  }

  ghost function Flatten(ps: seq<Payload>): seq<byte> {
    if ps == [] then [] else ps[0] + Flatten(ps[1..])
  }

  lemma {:induction false} FlattenBoth(ps: seq<Payload>, qs: seq<Payload>)
    ensures Flatten(ps + qs) == Flatten(ps) + Flatten(qs)
    decreases |ps|
  {
    if ps == [] {
      assert ps + qs == qs;
    } else {
      FlattenBoth(ps[1..], qs);
      assert (ps + qs)[1..] == ps[1..] + qs;
      Assoc(ps[0], Flatten(ps[1..]), Flatten(qs));
    }
  }

  lemma StepAccepts(c: Conn, e: Event)
    requires Enabled(c, e)
    ensures AcceptedBy(c, e) == Flatten(AcceptedFrom(c, e))
  {
    hide Refused;
    var ps := Direct(c, e) + Handed(c, e);
    if |ps| == 1 { assert ps[1..] == [] && ps[0] + [] == ps[0]; }
  }

  lemma {:induction false} AcceptedIsFlattened(c: Conn, es: seq<Event>)
    requires Legal(c, es)
    ensures Accepted(c, es) == Flatten(AcceptedPayloads(c, es))
    decreases |es|
  {
    hide Step, Enabled, AcceptedBy, AcceptedFrom;
    if es != [] {
      var n := Step(c, es[0]);
      StepAccepts(c, es[0]);
      AcceptedIsFlattened(n, es[1..]);
      FlattenBoth(AcceptedFrom(c, es[0]), AcceptedPayloads(n, es[1..]));
    }
  }

  lemma {:induction false} AcceptedIsOffered(c: Conn, es: seq<Event>)
    requires Legal(c, es)
    ensures multiset(AcceptedPayloads(c, es)) <= multiset(DirectIn(c, es)) + multiset(HandedIn(c, es))
    decreases |es|
  {
    hide Step, Enabled, Refused, Direct, Handed;
    if es != [] {
      var n := Step(c, es[0]);
      AcceptedIsOffered(n, es[1..]);
      MultisetOfBoth(AcceptedFrom(c, es[0]), AcceptedPayloads(n, es[1..]));
      MultisetOfBoth(Direct(c, es[0]), Handed(c, es[0]));
      MultisetOfBoth(Direct(c, es[0]), DirectIn(n, es[1..]));
      MultisetOfBoth(Handed(c, es[0]), HandedIn(n, es[1..]));
    }
  }

  /** What reaches the wire and the buffer is whole payloads, each of them given to a send()
      that saw the connection open, and none more often than it was given. */
  lemma WireIsMadeOfPayloads(config: Config, es: seq<Event>)
    requires Legal(Init(config), es)
    ensures var c, ps := Exec(Init(config), es), AcceptedPayloads(Init(config), es);
      && c.wire + c.output == Flatten(ps)
      && multiset(ps) <= multiset(DirectIn(Init(config), es)) + multiset(TakenIn(Init(config), es))
  {
    hide Step, Enabled, TakenIn, HandedIn, DirectIn, AcceptedPayloads, Inv;
    WireIsPrefixOfAccepted(config, es);
    AcceptedIsFlattened(Init(config), es);
    AcceptedIsOffered(Init(config), es);
    TakenPayloadsAreConserved(config, es);
  }
}
