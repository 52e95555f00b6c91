/** The connection object itself: the methods update its fields and its output buffer
    step by step, and each is proved to be the corresponding protocol step. */
module TcpConnections {
  import opened Basics
  import opened ByteBuffer
  import P = ConnectionProtocol
  import S = SentPayloads

  class TcpConnection {
    var state: P.State
    var reading: bool
    var writing: bool
    // The channel is in the poller's map.
    var registered: bool
    const outputBuffer: Buffer
    const config: P.Config
    // The socket: what the kernel took, and whether SHUT_WR was issued.
    var wire: seq<byte>
    var writeClosed: bool
    // Other threads inside send() or shutdown(), past the state test.
    var tested: multiset<seq<byte>>
    var owed: bool
    // The loop's functor queue, as far as this connection is concerned.
    var pending: seq<P.Functor>

    ghost predicate Valid()
      reads this, outputBuffer
    {
      outputBuffer.Valid()
    }

    ghost function View(): P.Conn
      requires Valid()
      reads this, outputBuffer, outputBuffer.data
    {
      P.Conn(state, reading, writing, registered, outputBuffer.Contents(), wire, writeClosed, tested, owed,
             pending, config)
    }

    constructor (config: P.Config)
      ensures Valid() && View() == P.Init(config)
      ensures fresh(outputBuffer) && fresh(outputBuffer.data)
    {
      var b := new Buffer(INITIAL_SIZE);
      outputBuffer := b;
      this.config := config;
      state, reading, writing, registered := P.Connecting, false, false, false;
      wire, writeClosed, tested, owed, pending := [], false, multiset{}, false, [];
    }

    method QueueInLoop(f: P.Functor)
      requires Valid()
      modifies `pending
      ensures Valid() && View() == P.Queue(old(View()), f)
    {
      pending := pending + [f];
    }

    /** Sends directly when nothing is pending, and buffers what the kernel left. */
    method SendInLoop(data: seq<byte>, k: P.WriteResult)
      requires Valid() && P.KernelAllows(View(), |data|, k)
      modifies this, outputBuffer, outputBuffer.data
      ensures Valid() && View() == P.SendInLoop(old(View()), data, k)
      ensures outputBuffer.data == old(outputBuffer.data) || fresh(outputBuffer.data)
    {
      var nwrote := 0;
      var remaining := |data|;
      var faultError := false;
      if state == P.Disconnected {
        return;
      }
      if !writing && outputBuffer.ReadableBytes() == 0 {
        if k.Wrote? {
          nwrote := k.n;
          wire := wire + data[..nwrote];
          remaining := |data| - nwrote;
          if remaining == 0 && config.onWriteComplete {
            QueueInLoop(P.WriteCompleteF);
          }
        } else if !k.WouldBlock? {
          if k.Pipe? || k.Reset? {
            faultError := true;
          }
        }
      }
      if !faultError && remaining > 0 {
        assert data[0..] == data;
        BufferRest(data[nwrote..]);
      }
    }

    /** The end of sendInLoop: what the kernel did not take is appended, and write interest
        is on. */
    method BufferRest(rest: seq<byte>)
      requires Valid()
      modifies this, outputBuffer, outputBuffer.data
      ensures Valid() && View() == P.BufferRest(old(View()), rest)
      ensures outputBuffer.data == old(outputBuffer.data) || fresh(outputBuffer.data)
    {
      var oldLen := outputBuffer.ReadableBytes();
      if oldLen + |rest| >= config.mark && oldLen < config.mark && config.onHighWater {
        QueueInLoop(P.HighWaterF(oldLen + |rest|));
      }
      outputBuffer.Append(rest);
      if !writing {
        writing, registered := true, true;
      }
    }

    /** send() in the loop's own thread. */
    method Send(data: seq<byte>, k: P.WriteResult)
      requires Valid() && P.KernelAllows(View(), |data|, k)
      modifies this, outputBuffer, outputBuffer.data
      ensures Valid() && View() == P.SendHere(old(View()), data, k)
      ensures outputBuffer.data == old(outputBuffer.data) || fresh(outputBuffer.data)
    {
      if state == P.Connected {
        SendInLoop(data, k);
      }
    }

    /** send() in another thread, up to the queueing; and the queueing. */
    method SendTest(data: seq<byte>)
      requires Valid()
      modifies `tested
      ensures Valid() && View() == P.SendTest(old(View()), data)
    {
      if state == P.Connected {
        tested := tested + multiset{data};
      }
    }

    method SendPush(data: seq<byte>)
      requires Valid() && data in tested
      modifies `tested, `pending
      ensures Valid() && View() == P.SendPush(old(View()), data)
    {
      tested := tested - multiset{data};
      QueueInLoop(P.SendF(data));
    }

    method ShutdownInLoop()
      requires Valid()
      modifies `writeClosed
      ensures Valid() && View() == P.ShutdownInLoop(old(View()))
    {
      if !writing {
        writeClosed := true;
      }
    }

    method Shutdown(inLoop: bool)
      requires Valid()
      modifies this
      ensures Valid() && View() == P.Shutdown(old(View()), inLoop)
    {
      if state == P.Connected {
        state := P.Disconnecting;
        if inLoop {
          ShutdownInLoop();
        } else {
          owed := true;
        }
      }
    }

    method ShutdownPush()
      requires Valid() && owed
      modifies `owed, `pending
      ensures Valid() && View() == P.ShutdownPush(old(View()))
    {
      owed := false;
      QueueInLoop(P.ShutdownF);
    }

    /** Drains the buffer on EPOLLOUT; the drain that empties it carries out a deferred
        shutdown. */
    method HandleWrite(k: P.WriteResult)
      requires Valid() && P.KernelAllows(View(), |outputBuffer.Contents()|, k)
      modifies this, outputBuffer
      ensures Valid() && View() == P.HandleWrite(old(View()), k)
      ensures outputBuffer.data == old(outputBuffer.data)
    {
      if writing {
        var n := if k.Wrote? then k.n else -1;
        if n > 0 {
          ghost var was := outputBuffer.Contents();
          wire := wire + outputBuffer.data[outputBuffer.readerIndex..outputBuffer.readerIndex + n];
          assert was[..n] == outputBuffer.data[outputBuffer.readerIndex..outputBuffer.readerIndex + n];
          outputBuffer.Retrieve(n);
          assert outputBuffer.Contents() == was[n..];
          if outputBuffer.ReadableBytes() == 0 {
            writing, registered := false, true;
            if config.onWriteComplete {
              QueueInLoop(P.WriteCompleteF);
            }
            if state == P.Disconnecting {
              ShutdownInLoop();
            }
          }
        }
      }
    }

    method HandleClose()
      requires Valid()
      modifies this
      ensures Valid() && View() == P.HandleClose(old(View()))
    {
      state := P.Disconnected;
      reading, writing, registered := false, false, true;
    }

    method ConnectEstablished()
      requires Valid()
      modifies this
      ensures Valid() && View() == P.ConnectEstablished(old(View()))
    {
      state := P.Connected;
      reading, registered := true, true;
    }

    method ConnectDestroyed()
      requires Valid()
      modifies this
      ensures Valid() && View() == P.ConnectDestroyed(old(View()))
    {
      if state == P.Connected {
        state := P.Disconnected;
        reading, writing := false, false;
      }
      registered := false;
    }

    method RunFunctor(k: P.WriteResult)
      requires Valid() && P.Enabled(View(), P.LoopFunctor(k))
      modifies this, outputBuffer, outputBuffer.data
      ensures Valid() && View() == P.RunFunctor(old(View()), k)
      ensures outputBuffer.data == old(outputBuffer.data) || fresh(outputBuffer.data)
    {
      var f := pending[0];
      pending := pending[1..];
      match f
      case SendF(data) => SendInLoop(data, k);
      case ShutdownF => ShutdownInLoop();
      case WriteCompleteF =>
      case HighWaterF(_) =>
    }

    method HandleEvent(e: P.Event)
      requires Valid() && P.Enabled(View(), e)
      modifies this, outputBuffer, outputBuffer.data
      ensures Valid() && View() == P.Step(old(View()), e)
      ensures outputBuffer.data == old(outputBuffer.data) || fresh(outputBuffer.data)
    {
      match e
      case Establish => ConnectEstablished();
      case SendCall(data, k) => Send(data, k);
      case SendTested(data) => SendTest(data);
      case SendPushed(data) => SendPush(data);
      case ShutdownCall(inLoop) => Shutdown(inLoop);
      case ShutdownPushed => ShutdownPush();
      case LoopFunctor(k) => RunFunctor(k);
      case Writable(k) => HandleWrite(k);
      case Close => HandleClose();
      case Destroy => ConnectDestroyed();
    }
  }

  /** Drives a fresh connection object through a whole run: what reached the socket and
      what is left in the compacting buffer are the accepted payloads, in order, each of
      them given to a send() that saw the connection open. */
  method Drive(config: P.Config, es: seq<P.Event>) returns (wire: seq<byte>, buffered: seq<byte>)
    requires P.Legal(P.Init(config), es)
    ensures wire + buffered == P.Accepted(P.Init(config), es) == S.Flatten(S.AcceptedPayloads(P.Init(config), es))
    ensures multiset(S.AcceptedPayloads(P.Init(config), es)) <=
      multiset(S.DirectIn(P.Init(config), es)) + multiset(S.TakenIn(P.Init(config), es))
    ensures wire == P.Exec(P.Init(config), es).wire
  {
    var c := new TcpConnection(config);
    var i := 0;
    while i < |es|
      invariant 0 <= i <= |es| && c.Valid()
      invariant fresh(c) && fresh(c.outputBuffer) && fresh(c.outputBuffer.data)
      invariant P.Legal(c.View(), es[i..])
      invariant P.Exec(c.View(), es[i..]) == P.Exec(P.Init(config), es)
    {
      assert es[i..][1..] == es[i + 1..];
      c.HandleEvent(es[i]);
      i := i + 1;
    }
    wire := c.wire;
    buffered := c.outputBuffer.data[c.outputBuffer.readerIndex..c.outputBuffer.writerIndex];
    P.WireIsPrefixOfAccepted(config, es);
    S.WireIsMadeOfPayloads(config, es);
  }
}
