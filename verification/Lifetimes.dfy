/**
  What a whole run does to one connection, in terms of what the kernel reports and the sockets answer: when it is
  scheduled to be freed, when it is closed, and which bytes it hands over.
 */
module Lifetimes {
  import opened Prelude
  import opened EventLoop
  import opened Lifecycle

  /** The event is about the descriptor of connection c, which is open. */
  ghost predicate IsAbout(w: World, fd: int, c: Address) {
    && c in w.https && w.https[c].tcp in w.tcps
    && w.tcps[w.https[c].tcp].fd == fd && fd != CLOSED
  }

  /** What a read that is not preceded by a close brings. */
  function Told(ready: Ready): string {
    if !ready.peerClosed && ready.readable && ready.received.RecvData? then Texts(ready.received.served) else ""
  }

  /** The response after that read, before any write. */
  function Pending(h: HTTPConnection, ready: Ready): string {
    h.pending + Told(ready)
  }

  function Last(h: HTTPConnection, ready: Ready): bool {
    if !ready.peerClosed && ready.readable && ready.received.RecvData? then LastOf(ready.received.served, h.last) else h.last
  }

  /** The read fails for good: a hard error, or data that the request queue rejects. */
  predicate FailsForGood(received: Received) {
    match received
    case RecvError(again) => !again
    case RecvEmpty => false
    case RecvData(_, accepted) => !accepted
  }

  /** A write finds the connection drained and marked last. */
  predicate IsDone(h: HTTPConnection, ready: Ready) {
    !ready.peerClosed && ready.writable && Pending(h, ready) == "" && Last(h, ready)
  }

  /** Why an event schedules its connection. */
  predicate Schedules(h: HTTPConnection, ready: Ready) {
    || ready.peerClosed
    || (ready.readable && FailsForGood(ready.received))
    || IsDone(h, ready)
  }

  /** What the event hands over to the socket. */
  function HandsOver(h: HTTPConnection, ready: Ready): string {
    if !ready.peerClosed && ready.writable then Front(Pending(h, ready), BUFSIZE) else ""
  }

  // ----------------------------------------------------------------------------------------------
  // One handler
  // ----------------------------------------------------------------------------------------------

  /** Nothing of connection c has changed. */
  ghost predicate Untouched(w: World, w': World, c: Address)
    requires c in w.https && w.https[c].tcp in w.tcps
  {
    && c in w'.https && w'.https[c] == w.https[c]
    && w.https[c].tcp in w'.tcps && w'.tcps[w.https[c].tcp] == w.tcps[w.https[c].tcp]
    && (c in w'.scheduled <==> c in w.scheduled)
  }

  lemma PairOf(w: World, c: Address)
    requires w.Inv() && c in w.https
    ensures w.https[c].tcp in w.tcps && w.tcps[w.https[c].tcp].data == c
    ensures c < w.nextAddress && w.https[c].tcp < w.nextAddress
  {
  }

  lemma PairBack(w: World, t: Address)
    requires w.Inv() && t in w.tcps
    ensures w.tcps[t].data in w.https && w.https[w.tcps[t].data].tcp == t
  {
  }

  /** A handler on another descriptor leaves a connection alone. */
  lemma HandleOther(w: World, fd: int, kind: Kind, received: Received, candidate: int, c: Address)
    requires w.Inv() && w.Settled() && c in w.https && !IsAbout(w, fd, c)
    ensures w.https[c].tcp in w.tcps && Untouched(w, w.Handle(fd, kind, received, candidate), c)
  {
    hide World.Inv, World.Settled, World.HandleRead, World.HandleWrite, World.HandleClose;
    PairOf(w, c);
    if fd in w.watches && kind in w.watches[fd] {
      HandlerOwner(w, fd, kind);
      var (callback, t) := w.watches[fd][kind];
      if callback != IncomingConnection {
        PairBack(w, t);
        ReadDoes(w, t, received);
        WriteDoes(w, t);
        CloseDoes(w, t);
      }
    }
  }

  /** A connection that is open is watched on its descriptor, by its own handlers. */
  lemma HandleIsOwn(w: World, fd: int, kind: Kind, received: Received, candidate: int, c: Address)
    requires w.Inv() && IsAbout(w, fd, c)
    ensures w.https[c].tcp in w.tcps && w.tcps[w.https[c].tcp].data == c
    ensures var t, w' := w.https[c].tcp, w.Handle(fd, kind, received, candidate);
      match kind
      case Read => w' == w.HandleRead(t, received)
      case Write => w' == w.HandleWrite(t)
      case Close => w' == w.HandleClose(t)
  {
    hide World.HandleRead, World.HandleWrite, World.HandleClose, World.Inv;
    PairOf(w, c);
    Ownership(w, w.https[c].tcp);
    DescriptorsAreNatural(w, w.https[c].tcp);
    if kind in w.watches[fd] {
      HandlerOwner(w, fd, kind);
    }
  }

  lemma DescriptorsAreNatural(w: World, t: Address)
    requires w.Inv() && t in w.tcps && w.tcps[t].fd != CLOSED
    ensures w.tcps[t].fd >= 0
  {
  }

  // ----------------------------------------------------------------------------------------------
  // One event
  // ----------------------------------------------------------------------------------------------

  /** What an event on its own descriptor makes of a connection, over the fields. */
  ghost predicate EventEffect(w: World, w': World, fd: int, ready: Ready, c: Address)
    requires IsAbout(w, fd, c)
  {
    var h, t := w.https[c], w.https[c].tcp;
    && c in w'.https && t in w'.tcps && w'.https[c].tcp == t
    && HandsOver(h, ready) + w'.https[c].pending == Pending(h, ready)
    && w'.https[c].last == Last(h, ready)
    && w'.tcps[t].fd == (if ready.peerClosed || IsDone(h, ready) then CLOSED else fd)
    && (c in w'.scheduled <==> c in w.scheduled || Schedules(h, ready))
  }

  lemma ReadStep(w: World, fd: int, ready: Ready, c: Address)
    requires w.Inv() && w.Settled() && IsAbout(w, fd, c) && !ready.peerClosed
    ensures var w1, h := w.HandleIf(ready.readable, fd, Read, ready), w.https[c];
      && w1.Inv() && w1.Settled() && IsAbout(w1, fd, c) && w1.tcps == w.tcps
      && w1.https[c] == h.(pending := Pending(h, ready), last := Last(h, ready))
      && (c in w1.scheduled <==> c in w.scheduled || (ready.readable && FailsForGood(ready.received)))
  {
    hide World.Inv, World.Settled, World.Handle, World.HandleRead, World.HandleWrite, World.HandleClose;
    PairOf(w, c);
    if ready.readable {
      HandleIsOwn(w, fd, Read, ready.received, ready.accepted, c);
      HandleKeepsInv(w, fd, Read, ready.received, ready.accepted);
      ReadDoes(w, w.https[c].tcp, ready.received);
    }
    assert w.https[c].pending + "" == w.https[c].pending;
  }

  lemma WriteStep(w: World, fd: int, ready: Ready, c: Address)
    requires w.Inv() && w.Settled() && IsAbout(w, fd, c)
    ensures var w1, h, t := w.HandleIf(ready.writable, fd, Write, ready), w.https[c], w.https[c].tcp;
      && c in w1.https && t in w1.tcps && w1.https[c].tcp == t && w1.https[c].last == h.last
      && (if ready.writable then Front(h.pending, BUFSIZE) else "") + w1.https[c].pending == h.pending
      && w1.tcps[t].fd == (if ready.writable && h.pending == "" && h.last then CLOSED else fd)
      && (c in w1.scheduled <==> c in w.scheduled || (ready.writable && h.pending == "" && h.last))
  {
    hide World.Inv, World.Settled, World.Handle, World.HandleRead, World.HandleWrite, World.HandleClose;
    PairOf(w, c);
    if ready.writable {
      HandleIsOwn(w, fd, Write, ready.received, ready.accepted, c);
      WriteDoes(w, w.https[c].tcp);
      CloseDoes(w, w.https[c].tcp);
    }
  }

  /** After a close there is nothing left to read or write. */
  lemma CloseStep(w: World, fd: int, ready: Ready, c: Address)
    requires w.Inv() && w.Settled() && IsAbout(w, fd, c) && ready.peerClosed
    ensures var w', t := w.HandleAll(fd, ready), w.https[c].tcp;
      w' == w.HandleClose(t) && w'.https == w.https && t in w'.tcps && w'.tcps[t].fd == CLOSED && c in w'.scheduled
  {
    hide World.Inv, World.Settled, World.Handle, World.HandleRead, World.HandleWrite, World.HandleClose;
    PairOf(w, c);
    HandleIsOwn(w, fd, Close, ready.received, ready.accepted, c);
    CloseDoes(w, w.https[c].tcp);
    var w1 := w.HandleClose(w.https[c].tcp);
    HandleUnwatched(w1, fd, Read, ready.received, ready.accepted);
    HandleUnwatched(w1, fd, Write, ready.received, ready.accepted);
  }

  /**
    One event on a connection's descriptor.  What was pending and what the served requests wrote is handed over
    first in, first out; the connection is closed exactly if the peer closed or if a write finds it drained and
    marked last; and it is scheduled exactly for that, for a hard error, or for rejected data.
   */
  lemma EventDoes(w: World, fd: int, ready: Ready, c: Address)
    requires w.Inv() && w.Settled() && IsAbout(w, fd, c)
    ensures EventEffect(w, w.HandleAll(fd, ready), fd, ready, c)
  {
    hide World.Inv, World.Settled, World.Handle, World.HandleRead, World.HandleWrite, World.HandleClose;
    if ready.peerClosed {
      CloseStep(w, fd, ready, c);
      assert w.https[c].pending + "" == w.https[c].pending && "" + w.https[c].pending == w.https[c].pending;
    } else {
      ReadStep(w, fd, ready, c);
      WriteStep(w.HandleIf(ready.readable, fd, Read, ready), fd, ready, c);
    }
  }

  /** An event on any other descriptor leaves the connection alone. */
  lemma EventSpares(w: World, fd: int, ready: Ready, c: Address)
    requires w.Inv() && w.Settled() && c in w.https && !IsAbout(w, fd, c)
    ensures w.https[c].tcp in w.tcps && Untouched(w, w.HandleAll(fd, ready), c)
  {
    hide World.Inv, World.Settled, World.Handle;
    PairOf(w, c);
    HandleOther(w, fd, Close, ready.received, ready.accepted, c);
    HandleKeepsInv(w, fd, Close, ready.received, ready.accepted);
    var w1 := w.HandleIf(ready.peerClosed, fd, Close, ready);
    HandleOther(w1, fd, Read, ready.received, ready.accepted, c);
    HandleKeepsInv(w1, fd, Read, ready.received, ready.accepted);
    var w2 := w1.HandleIf(ready.readable, fd, Read, ready);
    HandleOther(w2, fd, Write, ready.received, ready.accepted, c);
  }

  /** A free takes the head away and leaves every other connection alone. */
  lemma FreeSpares(w: World, c: Address)
    requires w.Inv() && w.Settled() && c in w.https
    ensures w.https[c].tcp in w.tcps
    ensures if |w.scheduled| > 0 && w.scheduled[0] == c then c !in w.Next(CollectNext).https else Untouched(w, w.Next(CollectNext), c)
  {
    hide World.Inv, World.Settled, World.Watched, World.ClosedOnce, World.FreedOnce;
    PairOf(w, c);
    if |w.scheduled| > 0 {
      ScheduledIsLive(w);
      var t := w.https[w.scheduled[0]].tcp;
      CloseScheduledSettles(w, t);
    }
  }

  /** A connection of its own, on a descriptor that was not open, with nothing pending. */
  ghost predicate IsAccepted(w: World, w': World, fd: int, t: Address, c: Address) {
    && t !in w.tcps && c !in w.https
    && w'.tcps == w.tcps[t := TcpConnection(fd, c)] && w'.https == w.https[c := HTTPConnection(t, "", false)]
    && w'.open == w.open[fd := w.nextSerial] && w'.watches == w.watches[fd := ConnectionHandlers(t)]
    && w'.scheduled == w.scheduled
  }

  /** An event on the listener accepts one connection if it is readable and accept answers a descriptor; else it does nothing. */
  lemma ListenerEvent(w: World, ready: Ready)
    requires w.Inv() && w.Settled() && w.listenFd in w.watches
    ensures var w' := w.HandleAll(w.listenFd, ready);
      if ready.readable && ready.accepted >= 0 && ready.accepted !in w.open
      then exists t, c :: IsAccepted(w, w', ready.accepted, t, c)
      else w' == w
  {
    hide World.Inv, World.Settled, World.HandleRead, World.HandleWrite, World.HandleClose;
    ListenerOnlyReads(w);
    if ready.readable && ready.accepted >= 0 && ready.accepted !in w.open {
      AddressesAreNew(w);
      var w1 := w.Accept(ready.accepted, w.nextAddress, w.nextAddress + 1);
      assert w1.watches[w.listenFd] == w.watches[w.listenFd];
      assert w.Handle(w.listenFd, Read, ready.received, ready.accepted) == w1;
      assert w1.Handle(w.listenFd, Write, ready.received, ready.accepted) == w1;
      assert w.HandleAll(w.listenFd, ready) == w1;
      assert IsAccepted(w, w1, ready.accepted, w.nextAddress, w.nextAddress + 1);
    }
  }

  lemma ListenerOnlyReads(w: World)
    requires w.Inv() && w.listenFd in w.watches
    ensures w.watches[w.listenFd] == map[Read := (IncomingConnection, SERVER)] && w.listenFd in w.open
  {
  }

  // ----------------------------------------------------------------------------------------------
  // Whole runs
  // ----------------------------------------------------------------------------------------------

  /** The step is an event that schedules connection c. */
  ghost predicate Causes(w: World, step: Step, c: Address) {
    step.Event? && IsAbout(w, step.fd, c) && Schedules(w.https[c], step.ready)
  }

  /** What a step schedules was live, and the step had cause. */
  lemma StepCauses(w: World, step: Step, c: Address)
    requires w.Inv() && w.Settled() && c in w.Next(step).scheduled
    ensures c in w.scheduled || Causes(w, step, c)
  {
    hide World.Inv, World.Settled, World.HandleAll;
    StepKeepsInv(w, step);
    match step
    case Event(fd, ready) =>
      if c in w.https {
        if IsAbout(w, fd, c) {
          EventDoes(w, fd, ready, c);
        } else {
          EventSpares(w, fd, ready, c);
        }
      } else {
        OnlyLiveAreScheduled(w, fd, ready, c);
      }
    case CollectNext =>
      hide World.Next;
      CollectSchedulesNone(w);
  }

  lemma CollectSchedulesNone(w: World)
    requires w.Inv() && w.Settled()
    ensures forall c :: c in w.Next(CollectNext).scheduled ==> c in w.scheduled
  {
    hide World.Inv, World.Settled;
    if |w.scheduled| > 0 {
      ScheduledIsLive(w);
    }
  }

  /** A handler schedules only connections that are live; the listener's handler schedules none. */
  lemma HandleSchedulesLive(w: World, fd: int, kind: Kind, received: Received, candidate: int)
    requires w.Inv() && w.Settled()
    ensures var w' := w.Handle(fd, kind, received, candidate);
      && w'.listenFd == w.listenFd
      && (fd == w.listenFd ==> w'.scheduled == w.scheduled)
      && (fd != w.listenFd ==> w'.https.Keys == w.https.Keys && forall c :: c in w'.scheduled ==> c in w.scheduled || c in w.https)
  {
    hide World.Inv, World.Settled, World.HandleRead, World.HandleWrite, World.HandleClose;
    HandleKeepsFixed(w, fd, kind, received, candidate);
    if fd in w.watches && kind in w.watches[fd] {
      HandlerOwner(w, fd, kind);
      var (callback, t) := w.watches[fd][kind];
      if callback != IncomingConnection {
        PairBack(w, t);
        ReadDoes(w, t, received);
        WriteDoes(w, t);
        CloseDoes(w, t);
      }
    }
  }

  lemma CloseKeepsFixed(w: World, t: Address)
    requires t in w.tcps
    ensures w.HandleClose(t).listenFd == w.listenFd && w.HandleClose(t).gone == w.gone
  {
    var w1 := w.CloseTcp(t);
    assert w1.listenFd == w.listenFd && w1.gone == w.gone;
  }

  /** Handlers change neither the listener nor the record of what was freed. */
  lemma HandleKeepsFixed(w: World, fd: int, kind: Kind, received: Received, candidate: int)
    ensures var w' := w.Handle(fd, kind, received, candidate); w'.listenFd == w.listenFd && w'.gone == w.gone
  {
    hide World.HandleRead, World.HandleClose;
    if fd in w.watches && kind in w.watches[fd] {
      var (callback, t) := w.watches[fd][kind];
      if callback != IncomingConnection && t in w.tcps && w.tcps[t].data in w.https {
        ReadDoes(w, t, received);
        CloseKeepsFixed(w, t);
      }
    }
  }

  lemma OnlyLiveAreScheduled(w: World, fd: int, ready: Ready, c: Address)
    requires w.Inv() && w.Settled() && c in w.HandleAll(fd, ready).scheduled && c !in w.https
    ensures c in w.scheduled
  {
    hide World.Inv, World.Settled, World.Handle;
    HandleSchedulesLive(w, fd, Close, ready.received, ready.accepted);
    HandleKeepsInv(w, fd, Close, ready.received, ready.accepted);
    var w1 := w.HandleIf(ready.peerClosed, fd, Close, ready);
    HandleSchedulesLive(w1, fd, Read, ready.received, ready.accepted);
    HandleKeepsInv(w1, fd, Read, ready.received, ready.accepted);
    var w2 := w1.HandleIf(ready.readable, fd, Read, ready);
    HandleSchedulesLive(w2, fd, Write, ready.received, ready.accepted);
  }

  /**
    Over every run a connection enters the collector's list only by an event on its own descriptor that the peer
    closed, that reads a hard error or rejected data, or that writes when it is drained and marked last.
   */
  lemma {:induction false} ScheduledForCause(w: World, steps: seq<Step>, c: Address)
    requires w.Inv() && w.Settled() && c in w.After(steps).scheduled
    ensures c in w.scheduled || exists i :: 0 <= i < |steps| && Causes(w.After(steps[..i]), steps[i], c)
    decreases |steps|
  {
    hide World.Inv, World.Settled, World.Next, Causes;
    if steps != [] {
      var w1 := w.Next(steps[0]);
      StepKeepsInv(w, steps[0]);
      ScheduledForCause(w1, steps[1..], c);
      if i :| 0 <= i < |steps[1..]| && Causes(w1.After(steps[1..][..i]), steps[1..][i], c) {
        assert steps[..i + 1][1..] == steps[1..][..i];
        assert w.After(steps[..i + 1]) == w1.After(steps[1..][..i]);
        assert Causes(w.After(steps[..i + 1]), steps[i + 1], c);
      } else {
        StepCauses(w, steps[0], c);
        assert steps[..0] == [];
        assert c !in w.scheduled ==> Causes(w.After(steps[..0]), steps[0], c);
      }
    }
  }

  /** What one step hands over for connection c, and what it is told for it. */
  ghost function SentBy(w: World, step: Step, c: Address): string {
    if step.Event? && IsAbout(w, step.fd, c) then HandsOver(w.https[c], step.ready) else ""
  }

  ghost function ToldBy(w: World, step: Step, c: Address): string {
    if step.Event? && IsAbout(w, step.fd, c) then Told(step.ready) else ""
  }

  ghost function AllSent(w: World, steps: seq<Step>, c: Address): string
    decreases |steps|
  {
    if steps == [] then "" else SentBy(w, steps[0], c) + AllSent(w.Next(steps[0]), steps[1..], c)
  }

  ghost function AllTold(w: World, steps: seq<Step>, c: Address): string
    decreases |steps|
  {
    if steps == [] then "" else ToldBy(w, steps[0], c) + AllTold(w.Next(steps[0]), steps[1..], c)
  }

  /** One step keeps the bytes of a connection, unless it frees it. */
  lemma StepConserves(w: World, step: Step, c: Address)
    requires w.Inv() && w.Settled() && c in w.https
    ensures var w' := w.Next(step);
      if c in w'.https then SentBy(w, step, c) + w'.https[c].pending == w.https[c].pending + ToldBy(w, step, c)
      else step.CollectNext? && |w.scheduled| > 0 && w.scheduled[0] == c
  {
    hide World.Inv, World.Settled, World.HandleAll;
    assert "" + w.https[c].pending == w.https[c].pending && w.https[c].pending + "" == w.https[c].pending;
    match step
    case Event(fd, ready) =>
      if IsAbout(w, fd, c) {
        EventDoes(w, fd, ready, c);
      } else {
        EventSpares(w, fd, ready, c);
      }
    case CollectNext =>
      FreeSpares(w, c);
      hide World.Next;
  }

  /** A connection that is gone does not come back under its address. */
  lemma {:induction false} GoneStaysGone(w: World, steps: seq<Step>, c: Address)
    requires w.Inv() && w.Settled() && c in w.gone
    ensures c in w.After(steps).gone && c !in w.After(steps).https
    decreases |steps|
  {
    hide World.Inv, World.Settled, World.Next;
    if steps == [] {
      GoneIsNotLive(w, c);
    } else {
      StepKeepsInv(w, steps[0]);
      StepKeepsGone(w, steps[0], c);
      GoneStaysGone(w.Next(steps[0]), steps[1..], c);
    }
  }

  lemma GoneIsNotLive(w: World, c: Address)
    requires w.Inv() && c in w.gone
    ensures c !in w.https
  {
  }

  lemma StepKeepsGone(w: World, step: Step, c: Address)
    requires c in w.gone
    ensures c in w.Next(step).gone
  {
    hide World.Handle, World.CloseTcp;
    match step
    case Event(fd, ready) =>
      HandleKeepsFixed(w, fd, Close, ready.received, ready.accepted);
      var w1 := w.HandleIf(ready.peerClosed, fd, Close, ready);
      HandleKeepsFixed(w1, fd, Read, ready.received, ready.accepted);
      HandleKeepsFixed(w1.HandleIf(ready.readable, fd, Read, ready), fd, Write, ready.received, ready.accepted);
    case CollectNext =>
      if |w.scheduled| > 0 && w.scheduled[0] in w.https && w.https[w.scheduled[0]].tcp in w.tcps {
        CloseTcpKeepsGone(w, w.https[w.scheduled[0]].tcp);
      }
  }

  lemma CloseTcpKeepsGone(w: World, t: Address)
    requires t in w.tcps
    ensures w.CloseTcp(t).gone == w.gone
  {
  }

  /**
    Over every run, for a connection that is still live at its end: what was handed over to the socket, followed
    by what is pending, is what was pending, followed by all texts of the requests that were served for it.
   */
  lemma {:induction false} BytesAreConserved(w: World, steps: seq<Step>, c: Address)
    requires w.Inv() && w.Settled() && c in w.https && c in w.After(steps).https
    ensures AllSent(w, steps, c) + w.After(steps).https[c].pending == w.https[c].pending + AllTold(w, steps, c)
    decreases |steps|
  {
    hide World.Inv, World.Settled, World.Next, SentBy, ToldBy;
    if steps == [] {
      assert "" + w.https[c].pending == w.https[c].pending + "";
    } else {
      var w1 := w.Next(steps[0]);
      StepKeepsInv(w, steps[0]);
      StepConserves(w, steps[0], c);
      if c !in w1.https {
        FreedIsGone(w, c);
        GoneStaysGone(w1, steps[1..], c);
        assert false;
      }
      BytesAreConserved(w1, steps[1..], c);
      Reassociate(SentBy(w, steps[0], c), AllSent(w1, steps[1..], c), w.After(steps).https[c].pending,
                  w1.https[c].pending, w.https[c].pending, ToldBy(w, steps[0], c), AllTold(w1, steps[1..], c));
    }
  }

  lemma FreedIsGone(w: World, c: Address)
    requires w.Inv() && w.Settled() && c in w.https && |w.scheduled| > 0 && w.scheduled[0] == c
    ensures c in w.Next(CollectNext).gone
  {
    hide World.Inv, World.Settled, World.Next;
    DestroyClosesOwnFile(w);
  }

  lemma Reassociate(sent: string, sents: string, last: string, middle: string, first: string, told: string, tolds: string)
    requires sent + middle == first + told && sents + last == middle + tolds
    ensures (sent + sents) + last == first + (told + tolds)
  {
    assert (sent + sents) + last == sent + (sents + last);
    assert sent + (middle + tolds) == (sent + middle) + tolds;
    assert (first + told) + tolds == first + (told + tolds);
  }
}
