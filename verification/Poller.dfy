/** Channels and the epoll poller: the channel's interest mask, the poller's channel map
    and the kernel's interest set, kept in step. */
module Pollers {
  import opened Basics

  type Mask = bv8

  const NONE_EVENT: Mask := 0
  const READ_EVENT: Mask := 3   // EPOLLIN | EPOLLPRI
  const WRITE_EVENT: Mask := 4  // EPOLLOUT

  const NEW: int := -1
  const ADDED: int := 1
  const DELETED: int := 2

  datatype CtlOp = CtlAdd | CtlMod | CtlDel

  class Channel {
    const fd: int
    var events: Mask
    var revents: Mask
    var index: int

    constructor (fd: int)
      ensures this.fd == fd && events == NONE_EVENT && revents == NONE_EVENT && index == NEW
    {
      this.fd := fd;
      events, revents, index := NONE_EVENT, NONE_EVENT, NEW;
    }

    predicate IsNoneEvent() reads this { events == NONE_EVENT }
  }

  class EPollPoller {
    var channels: map<int, Channel>
    // The kernel's interest set behind epollfd_.
    var kernel: map<int, Mask>

    constructor ()
      ensures channels == map[] && kernel == map[]
    {
      channels, kernel := map[], map[];
    }

    /** The channel is in step with the map and the kernel, up to its mask. */
    ghost predicate Placed(c: Channel)
      reads this, c
    {
      && (c.index == NEW || c.index == ADDED || c.index == DELETED)
      && (c.index == ADDED <==> c.fd in kernel)
      && (c.index != NEW <==> c.fd in channels)
      && (c.fd in channels ==> channels[c.fd] == c)
    }

    ghost predicate InStep(c: Channel)
      reads this, c
    {
      Placed(c) && (c.fd in kernel ==> kernel[c.fd] == c.events)
    }

    ghost predicate Valid(all: set<Channel>)
      reads this, all
    {
      && (forall c, d :: c in all && d in all && c.fd == d.fd ==> c == d)
      && (forall c :: c in all ==> InStep(c))
    }

    /** epoll_ctl: adding a present descriptor fails, as does changing or deleting an
        absent one. */
    method EpollCtl(op: CtlOp, fd: int, mask: Mask) returns (ok: bool)
      modifies `kernel
      ensures ok <==> (op.CtlAdd? <==> fd !in old(kernel))
      ensures kernel == if !ok then old(kernel) else if op.CtlDel? then old(kernel) - {fd} else old(kernel)[fd := mask]
    {
      ok := op.CtlAdd? == (fd !in kernel);
      if ok {
        kernel := if op.CtlDel? then kernel - {fd} else kernel[fd := mask];
      }
    }

    /** Reports whether epoll_ctl succeeded; a failing add or change is fatal, a failing
        delete is only logged. */
    method Update(op: CtlOp, c: Channel) returns (ok: bool, fatal: bool)
      modifies `kernel
      ensures ok <==> (op.CtlAdd? <==> c.fd !in old(kernel))
      ensures fatal <==> !ok && !op.CtlDel?
      ensures kernel ==
        if !ok then old(kernel) else if op.CtlDel? then old(kernel) - {c.fd} else old(kernel)[c.fd := c.events]
    {
      ok := EpollCtl(op, c.fd, c.events);
      fatal := !ok && !op.CtlDel?;
    }

    /** No call fails: what is added is absent, what is changed or deleted is present. */
    method UpdateChannel(c: Channel, ghost all: set<Channel>) returns (ok: bool, fatal: bool)
      requires c in all && Placed(c)
      requires forall d, e :: d in all && e in all && d.fd == e.fd ==> d == e
      requires forall d :: d in all && d != c ==> InStep(d)
      modifies this, c`index
      ensures Valid(all) && ok && !fatal
      ensures c.index == if old(c.index) == ADDED && c.IsNoneEvent() then DELETED else ADDED
    {
      if c.index == NEW || c.index == DELETED {
        if c.index == NEW {
          channels := channels[c.fd := c];
        }
        c.index := ADDED;
        ok, fatal := Update(CtlAdd, c);
      } else {
        if c.IsNoneEvent() {
          ok, fatal := Update(CtlDel, c);
          c.index := DELETED;
        } else {
          ok, fatal := Update(CtlMod, c);
        }
      }
    }

    method RemoveChannel(c: Channel, ghost all: set<Channel>) returns (ok: bool)
      requires c in all && Valid(all)
      modifies this, c`index
      ensures Valid(all) && ok
      ensures c.index == NEW && c.fd !in channels && c.fd !in kernel
    {
      channels := channels - {c.fd};
      ok := true;
      if c.index == ADDED {
        var fatal;
        ok, fatal := Update(CtlDel, c);
      }
      c.index := NEW;
    }

    /** One channel call: change the mask and tell the poller, or remove the channel. */
    method Apply(c: Channel, call: Call, ghost all: set<Channel>) returns (ok: bool, fatal: bool)
      requires c in all && Valid(all)
      modifies this, c`index, c`events
      ensures Valid(all) && ok && !fatal
      ensures c.events == NewMask(old(c.events), call)
      ensures c.index == ADDED <==> NowWatched(old(c.index) == ADDED, c.events, call)
    {
      fatal := false;
      if call.Remove? {
        ok := RemoveChannel(c, all);
      } else {
        c.events := NewMask(c.events, call);
        ok, fatal := UpdateChannel(c, all);
      }
    }

    /** What epoll_wait reported becomes the active list, each channel carrying its bits. */
    method FillActiveChannels(ready: seq<(Channel, Mask)>) returns (active: seq<Channel>)
      requires forall i, j :: 0 <= i < j < |ready| ==> ready[i].0 != ready[j].0
      modifies (set i | 0 <= i < |ready| :: ready[i].0)`revents
      ensures |active| == |ready|
      ensures forall i :: 0 <= i < |ready| ==> active[i] == ready[i].0 && active[i].revents == ready[i].1
    {
      active := [];
      for k := 0 to |ready|
        invariant |active| == k
        invariant forall i :: 0 <= i < k ==> active[i] == ready[i].0 && active[i].revents == ready[i].1
      {
        ready[k].0.revents := ready[k].1;
        active := active + [ready[k].0];
      }
    }
  }

  datatype Call = EnableReading | DisableReading | EnableWriting | DisableWriting | DisableAll | Remove

  function NewMask(m: Mask, call: Call): Mask {
    match call
    case EnableReading => m | READ_EVENT
    case DisableReading => m & !READ_EVENT
    case EnableWriting => m | WRITE_EVENT
    case DisableWriting => m & !WRITE_EVENT
    case DisableAll => NONE_EVENT
    case Remove => m
  }

  /** What channel i should be interested in after a sequence of calls on channels. */
  function Interest(calls: seq<(nat, Call)>, i: nat): Mask {
    if calls == [] then NONE_EVENT
    else
      var last := calls[|calls| - 1];
      var before := Interest(calls[..|calls| - 1], i);
      if last.0 == i then NewMask(before, last.1) else before
  }

  /** Whether the kernel watches a channel after a call, given whether it did before. A
      call that leaves the mask empty takes a watched channel out, but puts an unwatched
      one in. */
  predicate NowWatched(before: bool, mask: Mask, call: Call) {
    !call.Remove? && (mask != NONE_EVENT || !before)
  }

  predicate Watched(calls: seq<(nat, Call)>, i: nat) {
    calls != [] &&
      var last := calls[|calls| - 1];
      var before := Watched(calls[..|calls| - 1], i);
      if last.0 == i then NowWatched(before, Interest(calls, i), last.1) else before
  }

  /** The last call on channel i that is about reading, or about everything, turned it on. */
  predicate ReadOn(calls: seq<(nat, Call)>, i: nat) {
    calls != [] &&
      var last := calls[|calls| - 1];
      if last == (i, EnableReading) then true
      else if last == (i, DisableReading) || last == (i, DisableAll) then false
      else ReadOn(calls[..|calls| - 1], i)
  }

  /** The same for writing. */
  predicate WriteOn(calls: seq<(nat, Call)>, i: nat) {
    calls != [] &&
      var last := calls[|calls| - 1];
      if last == (i, EnableWriting) then true
      else if last == (i, DisableWriting) || last == (i, DisableAll) then false
      else WriteOn(calls[..|calls| - 1], i)
  }

  function Bits(reading: bool, writing: bool): Mask {
    (if reading then 3 else 0) | (if writing then 4 else 0)
  }

  lemma NewMaskBits(r: bool, w: bool, call: Call)
    ensures NewMask(Bits(r, w), call) ==
      match call
      case EnableReading => Bits(true, w)
      case DisableReading => Bits(false, w)
      case EnableWriting => Bits(r, true)
      case DisableWriting => Bits(r, false)
      case DisableAll => Bits(false, false)
      case Remove => Bits(r, w)
  {
  }

  /** A channel's mask always holds just the events that its calls left on. */
  lemma {:induction false} InterestIsWhatCallsLeftOn(calls: seq<(nat, Call)>, i: nat)
    ensures Interest(calls, i) == Bits(ReadOn(calls, i), WriteOn(calls, i))
    decreases |calls|
  {
    hide NewMask, Bits;
    if calls == [] {
      assert Bits(false, false) == NONE_EVENT by { NoBits(); }
    } else {
      var front := calls[..|calls| - 1];
      InterestIsWhatCallsLeftOn(front, i);
      NewMaskBits(ReadOn(front, i), WriteOn(front, i), calls[|calls| - 1].1);
    }
  }

  lemma NoBits()
    ensures Bits(false, false) == NONE_EVENT
  {
  }

  /** The last call on channel i, if any. */
  function LastCall(calls: seq<(nat, Call)>, i: nat): seq<Call> {
    if calls == [] then []
    else if calls[|calls| - 1].0 == i then [calls[|calls| - 1].1]
    else LastCall(calls[..|calls| - 1], i)
  }

  /** Never touched, or last removed. */
  predicate Removed(calls: seq<(nat, Call)>, i: nat) {
    LastCall(calls, i) == [] || LastCall(calls, i) == [Remove]
  }

  /** A channel is watched whenever its last call left it some interest, and not watched
      when it was removed or never touched. */
  lemma {:induction false} WatchedFollowsInterest(calls: seq<(nat, Call)>, i: nat)
    ensures !Removed(calls, i) && Interest(calls, i) != NONE_EVENT ==> Watched(calls, i)
    ensures Removed(calls, i) ==> !Watched(calls, i)
    decreases |calls|
  {
    if calls != [] { WatchedFollowsInterest(calls[..|calls| - 1], i); }
  }

  /** Every call that leaves a channel without interest toggles whether it is watched: on a
      channel the kernel does not watch it registers an empty mask. */
  lemma EmptyMaskTogglesWatch(calls: seq<(nat, Call)>, i: nat, call: Call)
    requires !call.Remove? && NewMask(Interest(calls, i), call) == NONE_EVENT
    ensures Watched(calls + [(i, call)], i) <==> !Watched(calls, i)
    ensures Interest(calls + [(i, call)], i) == NONE_EVENT
  {
    assert (calls + [(i, call)])[..|calls|] == calls;
  }

  /** The channels agree with what the calls so far ask of them. */
  ghost predicate Follow(cs: seq<Channel>, calls: seq<(nat, Call)>)
    reads cs
  {
    forall j :: 0 <= j < |cs| ==>
      cs[j].events == Interest(calls, j) && (cs[j].index == ADDED <==> Watched(calls, j))
  }

  lemma NoCallsYet()
    ensures forall j :: Interest([], j) == NONE_EVENT && !Watched([], j)
  {
  }

  lemma OneCallMore(calls: seq<(nat, Call)>, k: nat, j: nat)
    requires k < |calls|
    ensures var (i, call) := calls[k];
      && Interest(calls[..k + 1], j) == (if i == j then NewMask(Interest(calls[..k], j), call) else Interest(calls[..k], j))
      && Watched(calls[..k + 1], j) ==
        (if i == j then NowWatched(Watched(calls[..k], j), Interest(calls[..k + 1], j), call) else Watched(calls[..k], j))
  {
    assert calls[..k + 1][..k] == calls[..k];
  }

  method NewChannels(fds: seq<int>) returns (cs: seq<Channel>)
    ensures |cs| == |fds|
    ensures forall j :: 0 <= j < |cs| ==> fresh(cs[j]) && cs[j].fd == fds[j]
    ensures forall j :: 0 <= j < |cs| ==> cs[j].events == NONE_EVENT && cs[j].index == NEW
  {
    cs := [];
    for i := 0 to |fds|
      invariant |cs| == i
      invariant forall j :: 0 <= j < i ==> fresh(cs[j]) && cs[j].fd == fds[j]
      invariant forall j :: 0 <= j < i ==> cs[j].events == NONE_EVENT && cs[j].index == NEW
    {
      var c := new Channel(fds[i]);
      cs := cs + [c];
    }
  }

  /** For every sequence of calls on channels with distinct descriptors no epoll_ctl ever
      fails, let alone fatally, and at the end the kernel watches exactly the channels the calls ask it
      to, each with exactly its interest. */
  method RunCalls(fds: seq<int>, calls: seq<(nat, Call)>) returns (kernel: map<int, Mask>, ok: bool, fatal: bool)
    requires Distinct(fds)
    requires forall k :: 0 <= k < |calls| ==> calls[k].0 < |fds|
    ensures ok && !fatal
    ensures forall i :: 0 <= i < |fds| ==> (fds[i] in kernel <==> Watched(calls, i))
    ensures forall i :: 0 <= i < |fds| && fds[i] in kernel ==> kernel[fds[i]] == Interest(calls, i)
  {
    hide NewMask, NowWatched, Interest, Watched;
    assert forall j :: Interest([], j) == NONE_EVENT && !Watched([], j) by { NoCallsYet(); }
    var poller := new EPollPoller();
    var cs := NewChannels(fds);
    ghost var all := set i | 0 <= i < |cs| :: cs[i];
    ok, fatal := true, false;
    for k := 0 to |calls|
      invariant ok && !fatal && fresh(poller) && poller.Valid(all)
      invariant forall j :: 0 <= j < |cs| ==> fresh(cs[j])
      invariant Follow(cs, calls[..k])
    {
      var (i, call) := calls[k];
      forall j ensures Interest(calls[..k + 1], j) == (if i == j then NewMask(Interest(calls[..k], j), call) else Interest(calls[..k], j))
        && Watched(calls[..k + 1], j) ==
          (if i == j then NowWatched(Watched(calls[..k], j), Interest(calls[..k + 1], j), call) else Watched(calls[..k], j))
      {
        OneCallMore(calls, k, j);
      }
      var done, broken := poller.Apply(cs[i], call, all);
      ok, fatal := ok && done, fatal || broken;
    }
    assert calls[..|calls|] == calls;
    kernel := poller.kernel;
    forall i | 0 <= i < |fds| ensures cs[i] in all && poller.InStep(cs[i]) {
    }
  }
}
