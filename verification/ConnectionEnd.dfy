/** What else changes when a connection starts and ends: read interest, the channel's place
    in the poller, and what a closed connection still accepts. */
module ConnectionEnd {
  import opened Basics
  import opened ConnectionProtocol

  /** Read interest is on while the connection is open, half-closed included, and off before
      and after. */
  ghost predicate ReadsWhileOpen(c: Conn) {
    c.reading <==> c.state == Connected || c.state == Disconnecting
  }

  lemma StepKeepsReading(c: Conn, e: Event)
    requires ReadsWhileOpen(c) && Enabled(c, e)
    ensures ReadsWhileOpen(Step(c, e))
  {
    hide SendInLoop, HandleWrite;
    match e
    case SendCall(data, k) => SendInLoopSparesReading(c, data, k);
    case LoopFunctor(k) =>
      if c.pending[0].SendF? { SendInLoopSparesReading(c.(pending := c.pending[1..]), c.pending[0].payload, k); }
    case Writable(k) => HandleWriteSparesReading(c, k);
    case _ =>
  }

  lemma SendInLoopSparesReading(c: Conn, data: seq<byte>, k: WriteResult)
    requires k.Wrote? ==> k.n <= |data|
    ensures SendInLoop(c, data, k).reading == c.reading && SendInLoop(c, data, k).state == c.state
  {
  }

  lemma HandleWriteSparesReading(c: Conn, k: WriteResult)
    requires k.Wrote? ==> k.n <= |c.output|
    ensures HandleWrite(c, k).reading == c.reading && HandleWrite(c, k).state == c.state
  {
  }

  lemma {:induction false} EveryRunReadsWhileOpen(c: Conn, es: seq<Event>)
    requires ReadsWhileOpen(c) && Legal(c, es)
    ensures ReadsWhileOpen(Exec(c, es))
    decreases |es|
  {
    hide Step, Enabled, ReadsWhileOpen;
    if es != [] {
      StepKeepsReading(c, es[0]);
      EveryRunReadsWhileOpen(Step(c, es[0]), es[1..]);
    }
  }

  /** On a closed connection no step accepts, sends or buffers a byte, and it stays closed. */
  lemma ClosedStepMovesNothing(c: Conn, e: Event)
    requires c.state == Disconnected && !c.writing && Enabled(c, e)
    ensures Step(c, e).state == Disconnected && !Step(c, e).writing && AcceptedBy(c, e) == []
    ensures Step(c, e).wire == c.wire && Step(c, e).output == c.output
  {
  }

  lemma {:induction false} ClosedMovesNothing(c: Conn, es: seq<Event>)
    requires c.state == Disconnected && !c.writing && Legal(c, es)
    ensures Accepted(c, es) == [] && Exec(c, es).state == Disconnected
    ensures Exec(c, es).wire == c.wire && Exec(c, es).output == c.output
    decreases |es|
  {
    hide Step, Enabled, AcceptedBy;
    if es != [] {
      ClosedStepMovesNothing(c, es[0]);
      ClosedMovesNothing(Step(c, es[0]), es[1..]);
    }
  }

  /** Whatever the state before, nothing is accepted or sent from a close on. */
  lemma NothingMovesFromClose(c: Conn, es: seq<Event>)
    requires Legal(c, [Close] + es)
    ensures Accepted(c, [Close] + es) == [] && Exec(c, [Close] + es).state == Disconnected
    ensures Exec(c, [Close] + es).wire == c.wire && Exec(c, [Close] + es).output == c.output
  {
    assert ([Close] + es)[1..] == es;
    ClosedMovesNothing(Step(c, Close), es);
  }

  /** The same from the destruction of a connection that was still open. */
  lemma NothingMovesFromDestruction(c: Conn, es: seq<Event>)
    requires c.state == Connected && Legal(c, [Destroy] + es)
    ensures Accepted(c, [Destroy] + es) == [] && Exec(c, [Destroy] + es).state == Disconnected
    ensures Exec(c, [Destroy] + es).wire == c.wire && Exec(c, [Destroy] + es).output == c.output
  {
    assert ([Destroy] + es)[1..] == es;
    ClosedMovesNothing(Step(c, Destroy), es);
  }

  // ---- The channel in the poller ----

  ghost predicate NeverIn(es: seq<Event>, e: Event) {
    forall i :: 0 <= i < |es| ==> es[i] != e
  }

  /** The poller hears of the channel exactly when it is established or closed, or its write
      interest changes; so a destroyed connection that is only half closed comes back when a
      payload is buffered. */
  lemma RegisteredExactlyWhen(c: Conn, e: Event)
    requires Inv(c) && Enabled(c, e) && !e.Destroy?
    ensures Step(c, e).registered <==>
      c.registered || e.Establish? || e.Close? || Step(c, e).writing != c.writing
  {
    hide SendInLoop, HandleWrite, Inv;
    match e
    case SendCall(data, k) => SendInLoopRegisters(c, data, k);
    case LoopFunctor(k) =>
      if c.pending[0].SendF? { SendInLoopRegisters(c.(pending := c.pending[1..]), c.pending[0].payload, k); }
    case Writable(k) => HandleWriteRegisters(c, k);
    case _ =>
  }

  lemma SendInLoopRegisters(c: Conn, data: seq<byte>, k: WriteResult)
    requires k.Wrote? ==> k.n <= |data|
    ensures var n := SendInLoop(c, data, k); n.registered <==> c.registered || n.writing != c.writing
  {
  }

  lemma HandleWriteRegisters(c: Conn, k: WriteResult)
    requires k.Wrote? ==> k.n <= |c.output|
    ensures var n := HandleWrite(c, k); n.registered <==> c.registered || n.writing != c.writing
  {
  }

  lemma {:induction false} RegisteredUntilDestroyed(c: Conn, es: seq<Event>)
    requires c.registered && Legal(c, es) && NeverIn(es, Destroy)
    ensures Exec(c, es).registered
    decreases |es|
  {
    if es != [] { RegisteredUntilDestroyed(Step(c, es[0]), es[1..]); }
  }

  /** From the moment it is established the poller knows the channel until it is destroyed. */
  lemma RegisteredOnceEstablished(c: Conn, es: seq<Event>)
    requires c.state == Connecting && Legal(c, [Establish] + es) && NeverIn(es, Destroy)
    ensures Exec(c, [Establish] + es).registered
  {
    assert ([Establish] + es)[1..] == es;
    RegisteredUntilDestroyed(Step(c, Establish), es);
  }

  lemma {:induction false} GoneStaysGone(c: Conn, es: seq<Event>)
    requires c.state == Disconnected && !c.writing && !c.registered && Legal(c, es) && NeverIn(es, Close)
    ensures !Exec(c, es).registered
    decreases |es|
  {
    if es != [] {
      ClosedStepMovesNothing(c, es[0]);
      GoneStaysGone(Step(c, es[0]), es[1..]);
    }
  }

  /** And once a closed connection is destroyed the poller never sees its channel again. */
  lemma GoneOnceDestroyed(c: Conn, es: seq<Event>)
    requires Inv(c) && (c.state == Connected || c.state == Disconnected)
    requires Legal(c, [Destroy] + es) && NeverIn(es, Close)
    ensures !Exec(c, [Destroy] + es).registered
  {
    assert ([Destroy] + es)[1..] == es;
    GoneStaysGone(Step(c, Destroy), es);
  }
}
