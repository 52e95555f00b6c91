/** No shutdown is forgotten: while the kernel keeps taking bytes, a connection that is being
    shut down issues SHUT_WR after a bounded number of steps of its loop and of the threads
    that are inside send() or shutdown(). */
module ShutdownProgress {
  import opened Basics
  import opened ConnectionProtocol

  /** A step that gets work done: the kernel takes buffered bytes, a functor runs, or a
      thread queues the functor it owes. */
  predicate IsProgress(c: Conn, e: Event) {
    match e
    case Writable(k) => c.writing && k.Wrote? && k.n > 0
    case LoopFunctor(_) => true
    case SendPushed(_) => true
    case ShutdownPushed => true
    case _ => false
  }

  // ---- The work left ----

  /** Every byte of a payload may have to be buffered and drained, and buffering and draining
      may each queue a notification. */
  function Weight(f: Functor): nat {
    if f.SendF? then 2 * |f.payload| + 2 else 1
  }

  ghost function QueueWeight(fs: seq<Functor>): nat {
    if fs == [] then 0 else Weight(fs[0]) + QueueWeight(fs[1..])
  }

  ghost function TestedWeight(payloads: multiset<seq<byte>>): nat
    decreases |payloads|
  {
    if payloads == multiset{} then 0
    else
      var p :| p in payloads;
      2 * |p| + 3 + TestedWeight(payloads - multiset{p})
  }

  ghost function WorkLeft(c: Conn): nat {
    2 * |c.output| + QueueWeight(c.pending) + TestedWeight(c.tested) + if c.owed then 2 else 0
  }

  lemma {:induction false} WeightOfPush(fs: seq<Functor>, f: Functor)
    ensures QueueWeight(fs + [f]) == QueueWeight(fs) + Weight(f)
    decreases |fs|
  {
    if fs == [] {
      assert fs + [f] == [f] && [f][1..] == [];
    } else {
      WeightOfPush(fs[1..], f);
      assert (fs + [f])[1..] == fs[1..] + [f];
    }
  }

  lemma FirstCounted(payloads: multiset<seq<byte>>) returns (q: seq<byte>)
    requires payloads != multiset{}
    ensures q in payloads && TestedWeight(payloads) == 2 * |q| + 3 + TestedWeight(payloads - multiset{q})
  {
    q :| q in payloads && TestedWeight(payloads) == 2 * |q| + 3 + TestedWeight(payloads - multiset{q});
  }

  /** Which payload is counted first does not matter. */
  lemma {:induction false} WeightOfTested(payloads: multiset<seq<byte>>, p: seq<byte>)
    requires p in payloads
    ensures TestedWeight(payloads) == 2 * |p| + 3 + TestedWeight(payloads - multiset{p})
    decreases |payloads|
  {
    hide TestedWeight;
    var q := FirstCounted(payloads);
    if q != p {
      var a, b := payloads - multiset{q}, payloads - multiset{p};
      assert a - multiset{p} == b - multiset{q};
      WeightOfTested(a, p);
      WeightOfTested(b, q);
    }
  }

  // ---- Progress reduces it ----

  lemma BufferingAdds(c: Conn, rest: seq<byte>)
    ensures var n := BufferRest(c, rest);
      && 2 * |n.output| + QueueWeight(n.pending) <= 2 * |c.output| + QueueWeight(c.pending) + 2 * |rest| + 1
      && n.tested == c.tested && n.owed == c.owed && n.state == c.state
  {
    BufferRestPushes(c, rest);
    WeightOfPush(c.pending, HighWaterF(|c.output| + |rest|));
    hide QueueWeight;
  }

  lemma SendReduces(c: Conn, data: seq<byte>, k: WriteResult)
    requires k.Wrote? ==> k.n <= |data|
    ensures var n := SendInLoop(c, data, k);
      2 * |n.output| + QueueWeight(n.pending) <= 2 * |c.output| + QueueWeight(c.pending) + 2 * |data| + 1
    ensures var n := SendInLoop(c, data, k); n.tested == c.tested && n.owed == c.owed && n.state == c.state
  {
    hide BufferRest, QueueWeight;
    BufferingAdds(c, data);
    if k.Wrote? {
      BufferingAdds(c.(wire := c.wire + data[..k.n]), data[k.n..]);
      WeightOfPush(c.pending, WriteCompleteF);
    }
  }

  lemma FunctorReduces(c: Conn, k: WriteResult)
    requires Enabled(c, LoopFunctor(k))
    ensures WorkLeft(RunFunctor(c, k)) < WorkLeft(c) && RunFunctor(c, k).state == c.state
  {
    var rest := c.(pending := c.pending[1..]);
    assert QueueWeight(c.pending) == Weight(c.pending[0]) + QueueWeight(rest.pending);
    if c.pending[0].SendF? { SendReduces(rest, c.pending[0].payload, k); }
    hide SendInLoop, QueueWeight, TestedWeight;
  }

  lemma DrainReduces(c: Conn, k: WriteResult)
    requires Enabled(c, Writable(k)) && IsProgress(c, Writable(k))
    ensures WorkLeft(HandleWrite(c, k)) < WorkLeft(c) && HandleWrite(c, k).state == c.state
  {
    WeightOfPush(c.pending, WriteCompleteF);
    hide QueueWeight, TestedWeight;
  }

  lemma PushReduces(c: Conn, data: seq<byte>)
    requires data in c.tested
    ensures WorkLeft(SendPush(c, data)) < WorkLeft(c)
  {
    WeightOfTested(c.tested, data);
    WeightOfPush(c.pending, SendF(data));
    hide QueueWeight, TestedWeight;
  }

  lemma ShutdownPushReduces(c: Conn)
    requires c.owed
    ensures WorkLeft(ShutdownPush(c)) < WorkLeft(c)
  {
    WeightOfPush(c.pending, ShutdownF);
    hide QueueWeight, TestedWeight;
  }

  /** Whatever else happens to a connection that is not closed adds no work. */
  lemma OthersAddNoWork(c: Conn, e: Event)
    requires c.state == Disconnecting && Enabled(c, e) && !IsProgress(c, e) && !e.Close?
    ensures WorkLeft(Step(c, e)) == WorkLeft(c) && Step(c, e).state == Disconnecting
  {
    hide QueueWeight, TestedWeight;
  }

  lemma ProgressReducesWork(c: Conn, e: Event)
    requires c.state == Disconnecting && Enabled(c, e) && IsProgress(c, e)
    ensures WorkLeft(Step(c, e)) < WorkLeft(c) && Step(c, e).state == Disconnecting
  {
    hide WorkLeft, RunFunctor, HandleWrite;
    match e
    case LoopFunctor(k) => FunctorReduces(c, k);
    case Writable(k) => DrainReduces(c, k);
    case SendPushed(data) => PushReduces(c, data);
    case ShutdownPushed => ShutdownPushReduces(c);
  }

  // ---- The theorems ----

  /** Until SHUT_WR is issued some progress is always possible, if the kernel takes a byte. */
  lemma ProgressIsPossible(c: Conn) returns (e: Event)
    requires Inv(c) && c.state == Disconnecting && !c.writeClosed
    ensures Enabled(c, e) && IsProgress(c, e)
  {
    if c.output != [] {
      e := Writable(Wrote(1));
    } else if c.owed {
      e := ShutdownPushed;
    } else {
      e := LoopFunctor(WouldBlock);
    }
  }

  ghost predicate NeverClosed(es: seq<Event>) {
    forall i :: 0 <= i < |es| ==> !es[i].Close?
  }

  ghost function ProgressSteps(c: Conn, es: seq<Event>): nat
    requires Legal(c, es)
    decreases |es|
  {
    if es == [] then 0 else (if IsProgress(c, es[0]) then 1 else 0) + ProgressSteps(Step(c, es[0]), es[1..])
  }

  /** A run has no more progress steps than the work it starts with. */
  lemma {:induction false} ProgressIsBounded(c: Conn, es: seq<Event>)
    requires Inv(c) && c.state == Disconnecting && Legal(c, es) && NeverClosed(es)
    ensures ProgressSteps(c, es) + WorkLeft(Exec(c, es)) <= WorkLeft(c)
    ensures Inv(Exec(c, es)) && Exec(c, es).state == Disconnecting
    decreases |es|
  {
    hide Step, Enabled, Inv, WorkLeft, IsProgress;
    if es != [] {
      StepKeeps(c, es[0]);
      if IsProgress(c, es[0]) {
        ProgressReducesWork(c, es[0]);
      } else {
        OthersAddNoWork(c, es[0]);
      }
      ProgressIsBounded(Step(c, es[0]), es[1..]);
    }
  }

  /** With no work left SHUT_WR has been issued, and every accepted byte is on the wire. */
  lemma NoWorkMeansShut(c: Conn)
    requires Inv(c) && c.state == Disconnecting && WorkLeft(c) == 0
    ensures c.writeClosed && c.output == []
  {
  }

  /** So a shutdown under way is carried out: a run with as many progress steps as there was
      work has issued SHUT_WR, and a run that cannot progress any more has as well. */
  lemma ShutdownIsNotForgotten(c: Conn, es: seq<Event>)
    requires Inv(c) && c.state == Disconnecting && Legal(c, es) && NeverClosed(es)
    requires ProgressSteps(c, es) >= WorkLeft(c)
      || forall e :: Enabled(Exec(c, es), e) ==> !IsProgress(Exec(c, es), e)
    ensures Exec(c, es).writeClosed && Exec(c, es).output == []
  {
    ProgressIsBounded(c, es);
    var end := Exec(c, es);
    if WorkLeft(end) == 0 {
      NoWorkMeansShut(end);
    } else if !end.writeClosed {
      var e := ProgressIsPossible(end);
    }
  }
}
