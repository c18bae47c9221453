/**
  The life of a connection (src/httpserver.c, src/httpconnection.c, src/tcpconnection.c, src/collector.c and
  the dispatch loop of src/eloop.c).  A connection is torn down in two steps: its descriptor is closed at
  once, its memory is freed by the collector after the pass.  Descriptor numbers are reused by the kernel,
  so every open file also has a serial number that is never reused.
 */
module Lifecycle {
  import opened Prelude
  import opened EventLoop

  /** `data` is the HTTP connection that installed the callbacks. */
  datatype TcpConnection = TcpConnection(fd: int, data: Address)

  /** `pending` and `last` are the response buffer's contents and its last mark (see module Response). */
  datatype HTTPConnection = HTTPConnection(tcp: Address, pending: string, last: bool)

  const CLOSED := -1
  const BUFSIZE := 80 * 1024

  /** Where the HTTP server object lives. */
  const SERVER: Address := 1

  /** The watches that tcp_connection_set_callbacks installs for the connection at t. */
  ghost function ConnectionHandlers(t: Address): Handlers {
    map[Read := (ReadyRead, t), Write := (ReadyWrite, t), Close := (PeerClosed, t)]
  }

  /** What one request did to the connection's response while it was served. */
  datatype Served = Served(last: bool, text: string)

  /**
    What recv and the request queue answer to a read: an error, nothing, or data during whose parsing some
    requests were served and which the queue accepted or not.
   */
  datatype Received = RecvError(again: bool) | RecvEmpty | RecvData(served: seq<Served>, accepted: bool)

  /** The connection after serving requests in order: texts appended, the last mark that of the last request. */
  function Answered(h: HTTPConnection, served: seq<Served>): HTTPConnection {
    if served == [] then h else
      var before := Answered(h, served[..|served| - 1]);
      var s := served[|served| - 1];
      before.(pending := before.pending + s.text, last := s.last)
  }

  /** The texts of served requests, one after the other. */
  function Texts(served: seq<Served>): string {
    if served == [] then "" else served[0].text + Texts(served[1..])
  }

  /** The last mark after serving requests. */
  function LastOf(served: seq<Served>, last: bool): bool {
    if served == [] then last else served[|served| - 1].last
  }

  lemma {:induction false} TextsSnoc(served: seq<Served>, s: Served)
    ensures Texts(served + [s]) == Texts(served) + s.text
  {
    if served == [] {
      assert [] + [s] == [s] && [s][1..] == [];
    } else {
      assert (served + [s])[1..] == served[1..] + [s];
      TextsSnoc(served[1..], s);
    }
  }

  /** Serving requests appends their texts in order, and leaves the mark of the last one. */
  lemma {:induction false} AnsweredIs(h: HTTPConnection, served: seq<Served>)
    ensures Answered(h, served) == h.(pending := h.pending + Texts(served), last := LastOf(served, h.last))
  {
    if served != [] {
      var before, s := served[..|served| - 1], served[|served| - 1];
      AnsweredIs(h, before);
      TextsSnoc(before, s);
      assert before + [s] == served;
      assert (h.pending + Texts(before)) + s.text == h.pending + (Texts(before) + s.text);
    }
  }

  /** One kernel event: the entry it points at, its flags, and what the handlers' system calls will answer. */
  datatype Ready = Ready(ec: Address, peerClosed: bool, readable: bool, writable: bool, received: Received, accepted: int)

  datatype Step = Event(fd: int, ready: Ready) | CollectNext

  /** What one write hands to the socket. */
  function HandedOver(pending: string): string {
    Front(pending, BUFSIZE)
  }

  /**
    Everything the lifecycle depends on.  `open` is the kernel's descriptor table: the serial number of the
    file behind each open descriptor.  `serial` is the file a TCP connection was made for, `closes` counts the
    close calls per file, `frees` the frees per HTTP connection, and `gone` maps freed ones to their file.
   */
  datatype World = World(
    https: map<Address, HTTPConnection>,
    tcps: map<Address, TcpConnection>,
    watches: Watches,
    scheduled: seq<Address>,
    listenFd: int,
    open: map<int, nat>,
    serial: map<Address, nat>,
    nextSerial: nat,
    nextAddress: Address,
    closes: multiset<nat>,
    frees: multiset<Address>,
    gone: map<Address, nat>
  ) {
    /** HTTP and TCP connections come in pairs that point at each other. */
    ghost predicate Paired() {
      && (forall c :: c in https ==> https[c].tcp in tcps && tcps[https[c].tcp].data == c)
      && (forall t :: t in tcps ==> tcps[t].data in https && https[tcps[t].data].tcp == t)
      && (forall c :: c in https ==> c < nextAddress)
      && (forall t :: t in tcps ==> t < nextAddress)
    }

    /** A connection that is not closed owns its descriptor and has exactly its three watches on it. */
    ghost predicate Owning() {
      forall t :: t in tcps && tcps[t].fd != CLOSED ==>
        var fd := tcps[t].fd;
        && fd >= 0 && fd != listenFd
        && fd in open && t in serial && open[fd] == serial[t]
        && fd in watches && watches[fd] == ConnectionHandlers(t)
    }

    /** Every watch is the listener's or belongs to a live connection. */
    ghost predicate Watched() {
      && listenFd in open
      && (listenFd in watches ==> watches[listenFd] == map[Read := (IncomingConnection, SERVER)])
      && (forall fd :: fd in watches && fd != listenFd ==>
            fd != CLOSED && Read in watches[fd] && watches[fd][Read].1 in tcps && tcps[watches[fd][Read].1].fd == fd)
    }

    /** Each connection's file has been closed once if the connection is closed or gone, and never otherwise. */
    ghost predicate ClosedOnce() {
      && serial.Keys == tcps.Keys
      && (forall t :: t in tcps ==> serial[t] < nextSerial && closes[serial[t]] == if tcps[t].fd == CLOSED then 1 else 0)
      && (forall t, u :: t in tcps && u in tcps && t != u ==> serial[t] != serial[u])
      && (forall c :: c in gone ==> gone[c] < nextSerial && closes[gone[c]] == 1)
      && (forall c, t :: c in gone && t in tcps ==> gone[c] != serial[t])
      && (forall f :: f in closes ==> f < nextSerial && closes[f] == 1)
    }

    /** Each connection has been freed once if it is gone, and never otherwise. */
    ghost predicate FreedOnce() {
      && (forall c :: frees[c] == if c in gone then 1 else 0)
      && (forall c :: c in gone ==> c !in https && c < nextAddress)
    }

    /** The collector holds live connections, each once. */
    ghost predicate Collectable() {
      && (forall i :: 0 <= i < |scheduled| ==> scheduled[i] in https)
      && (forall i, j :: 0 <= i < j < |scheduled| ==> scheduled[i] != scheduled[j])
    }

    ghost predicate Inv() {
      Paired() && Owning() && Watched() && ClosedOnce() && FreedOnce() && Collectable()
    }

    /** Whoever was closed is scheduled to be freed. */
    ghost predicate Settled() {
      forall c :: c in https && https[c].tcp in tcps && tcps[https[c].tcp].fd == CLOSED ==> c in scheduled
    }

    /**
      What holds between passes: whoever was freed was freed once and its file closed once; no file was
      closed twice; every live connection still owns the very file it was accepted for, under whatever
      number; and every watch but the listener's belongs to such a connection.
     */
    ghost predicate AtRest() {
      && (forall c :: frees[c] == if c in gone then 1 else 0)
      && (forall c :: c in gone ==> c !in https && closes[gone[c]] == 1)
      && (forall f :: closes[f] <= 1)
      && (forall t :: t in tcps ==> tcps[t].data in https && t in serial && tcps[t].fd in open && open[tcps[t].fd] == serial[t])
      && (forall fd :: fd in watches && fd != listenFd ==>
            exists t :: t in tcps && tcps[t].fd == fd && watches[fd] == ConnectionHandlers(t))
    }

    /** A connection accepted on descriptor fd, with TCP connection t and HTTP connection c. */
    ghost function Accept(fd: int, t: Address, c: Address): World {
      this.(tcps := tcps[t := TcpConnection(fd, c)],
            https := https[c := HTTPConnection(t, "", false)],
            watches := watches[fd := ConnectionHandlers(t)],
            open := open[fd := nextSerial],
            serial := serial[t := nextSerial],
            nextSerial := nextSerial + 1,
            nextAddress := c + 1)
    }

    ghost function CloseTcp(t: Address): World
      requires t in tcps
    {
      var fd := tcps[t].fd;
      if fd == CLOSED || fd !in open then this else
        this.(tcps := tcps[t := tcps[t].(fd := CLOSED)],
              watches := watches - {fd},
              open := open - {fd},
              closes := closes + multiset{open[fd]})
    }

    ghost function Finish(c: Address): World {
      if c in scheduled then this else this.(scheduled := [c] + scheduled)
    }

    /** The response of connection c now holds `pending` and is marked last or not. */
    ghost function Respond(c: Address, pending: string, last: bool): World
      requires c in https
    {
      this.(https := https[c := https[c].(pending := pending, last := last)])
    }

    /** The read handler of TCP connection t. */
    ghost function HandleRead(t: Address, received: Received): World
      requires t in tcps && tcps[t].data in https
    {
      var c := tcps[t].data;
      match received
      case RecvError(again) => if again then this else Finish(c)
      case RecvEmpty => this
      case RecvData(served, accepted) =>
        var h := Answered(https[c], served);
        var answered := Respond(c, h.pending, h.last);
        if accepted then answered else answered.Finish(c)
    }

    /** The write handler: hand over at most one buffer, or close once everything is handed over and last. */
    ghost function HandleWrite(t: Address): World
      requires t in tcps && tcps[t].data in https
    {
      var c := tcps[t].data;
      var h := https[c];
      if h.pending != "" then Respond(c, h.pending[|HandedOver(h.pending)|..], h.last)
      else if h.last then HandleClose(t)
      else this
    }

    ghost function HandleClose(t: Address): World
      requires t in tcps
    {
      CloseTcp(t).Finish(tcps[t].data)
    }

    /** Whatever handler is installed for the descriptor and kind runs; if none is, nothing happens. */
    ghost function Handle(fd: int, kind: Kind, received: Received, candidate: int): World {
      if fd !in watches || kind !in watches[fd] then this else
        var (callback, data) := watches[fd][kind];
        if callback == IncomingConnection then
          if candidate >= 0 && candidate !in open then Accept(candidate, nextAddress, nextAddress + 1) else this
        else if data !in tcps || tcps[data].data !in https then this
        else match callback
          case ReadyRead => HandleRead(data, received)
          case ReadyWrite => HandleWrite(data)
          case _ => HandleClose(data)
    }

    ghost function HandleIf(flag: bool, fd: int, kind: Kind, ready: Ready): World {
      if flag then Handle(fd, kind, ready.received, ready.accepted) else this
    }

    /** One event on the entry of descriptor fd: close, read, write, as flagged. */
    ghost function HandleAll(fd: int, ready: Ready): World {
      HandleIf(ready.peerClosed, fd, Close, ready).HandleIf(ready.readable, fd, Read, ready).HandleIf(ready.writable, fd, Write, ready)
    }

    /** One step of a run: a kernel event on a descriptor, or the collector freeing its head. */
    ghost function Next(step: Step): World {
      match step
      case Event(fd, ready) => HandleAll(fd, ready)
      case CollectNext =>
        if |scheduled| > 0 && scheduled[0] in https && https[scheduled[0]].tcp in tcps
           && CloseTcp(https[scheduled[0]].tcp).FreeReady()
        then CloseTcp(https[scheduled[0]].tcp).Free()
        else this
    }

    ghost function After(steps: seq<Step>): World
      decreases |steps|
    {
      if steps == [] then this else Next(steps[0]).After(steps[1..])
    }

    /** The collector has freed its head n times. */
    ghost function Drained(n: nat): World {
      if n == 0 then this else Drained(n - 1).Next(CollectNext)
    }

    ghost predicate FreeReady() {
      && |scheduled| > 0 && scheduled[0] in https
      && https[scheduled[0]].tcp in tcps && https[scheduled[0]].tcp in serial && tcps[https[scheduled[0]].tcp].fd == CLOSED
    }

    /** The head of the collector's list, already closed, is freed. */
    ghost function Free(): World
      requires FreeReady()
    {
      var c := scheduled[0];
      var t := https[c].tcp;
      this.(https := https - {c},
            tcps := tcps - {t},
            serial := serial - {t},
            scheduled := scheduled[1..],
            frees := frees + multiset{c},
            gone := gone[c := serial[t]])
    }
  }

  lemma InitialInv(w: World)
    requires w.https == map[] && w.tcps == map[] && w.serial == map[] && w.gone == map[] && w.scheduled == []
    requires w.closes == multiset{} && w.frees == multiset{}
    requires w.listenFd in w.open && w.watches == map[w.listenFd := map[Read := (IncomingConnection, SERVER)]]
    ensures w.Inv() && w.Settled()
  {
  }

  lemma AcceptKeepsInv(w: World, fd: int, t: Address, c: Address)
    requires w.Inv() && w.Settled() && fd >= 0 && fd !in w.open && w.nextAddress <= t < c
    ensures w.Accept(fd, t, c).Inv() && w.Accept(fd, t, c).Settled() && fd !in w.watches
  {
    hide World.Paired, World.ClosedOnce, World.FreedOnce, World.Collectable, World.Settled;
    AcceptPaired(w, fd, t, c); AcceptOwning(w, fd, t, c); AcceptWatched(w, fd, t, c);
    AcceptClosedOnce(w, fd, t, c); AcceptRest(w, fd, t, c);
  }

  lemma FreeKeepsInv(w: World)
    requires w.Inv() && w.Settled() && w.FreeReady()
    ensures w.Free().Inv() && w.Free().Settled()
  {
    hide World.Paired, World.Owning, World.Watched, World.ClosedOnce, World.FreedOnce, World.Collectable, World.Settled;
    FreePaired(w); FreeOwning(w); FreeWatched(w); FreeClosedOnce(w); FreeRest(w);
  }

  lemma AcceptPaired(w: World, fd: int, t: Address, c: Address)
    requires w.Inv() && fd >= 0 && fd !in w.open && w.nextAddress <= t < c
    ensures w.Accept(fd, t, c).Paired()
  {
    hide World.Owning, World.Watched, World.ClosedOnce, World.FreedOnce, World.Collectable;
  }

  lemma AcceptOwning(w: World, fd: int, t: Address, c: Address)
    requires w.Inv() && fd >= 0 && fd !in w.open && w.nextAddress <= t < c
    ensures w.Accept(fd, t, c).Owning()
  {
    hide World.ClosedOnce, World.FreedOnce, World.Collectable;
  }

  lemma AcceptWatched(w: World, fd: int, t: Address, c: Address)
    requires w.Inv() && fd >= 0 && fd !in w.open && w.nextAddress <= t < c
    ensures w.Accept(fd, t, c).Watched()
  {
    hide World.ClosedOnce, World.FreedOnce, World.Collectable;
  }

  lemma AcceptClosedOnce(w: World, fd: int, t: Address, c: Address)
    requires w.Inv() && fd >= 0 && fd !in w.open && w.nextAddress <= t < c
    ensures w.Accept(fd, t, c).ClosedOnce()
  {
  }

  lemma AcceptRest(w: World, fd: int, t: Address, c: Address)
    requires w.Inv() && fd >= 0 && fd !in w.open && w.nextAddress <= t < c
    ensures w.Accept(fd, t, c).FreedOnce() && w.Accept(fd, t, c).Collectable()
    ensures w.Settled() ==> w.Accept(fd, t, c).Settled()
  {
    hide World.Owning, World.Watched, World.ClosedOnce;
  }

  lemma CloseTcpPaired(w: World, t: Address)
    requires w.Inv() && t in w.tcps
    ensures w.CloseTcp(t).Paired()
  {
    hide World.Owning, World.Watched, World.ClosedOnce, World.FreedOnce, World.Collectable;
  }

  lemma CloseTcpOwning(w: World, t: Address)
    requires w.Inv() && t in w.tcps
    ensures w.CloseTcp(t).Owning()
  {
    hide World.Paired, World.Watched, World.FreedOnce, World.Collectable;
  }

  lemma CloseTcpWatched(w: World, t: Address)
    requires w.Inv() && t in w.tcps
    ensures w.CloseTcp(t).Watched()
  {
    hide World.Paired, World.ClosedOnce, World.FreedOnce, World.Collectable;
  }

  lemma CloseTcpClosedOnce(w: World, t: Address)
    requires w.Inv() && t in w.tcps
    ensures w.CloseTcp(t).ClosedOnce()
  {
    hide World.Paired, World.Watched, World.FreedOnce, World.Collectable;
    var w' := w.CloseTcp(t);
    if w.tcps[t].fd != CLOSED {
      assert w'.closes == w.closes + multiset{w.serial[t]};
      assert forall f :: f != w.serial[t] ==> w'.closes[f] == w.closes[f];
    }
  }

  lemma CloseTcpRest(w: World, t: Address)
    requires w.Inv() && t in w.tcps
    ensures w.CloseTcp(t).FreedOnce() && w.CloseTcp(t).Collectable()
    ensures w.CloseTcp(t).tcps[t].fd == CLOSED
  {
  }

  lemma FreePaired(w: World)
    requires w.Inv() && w.FreeReady()
    ensures w.Free().Paired()
  {
    hide World.Owning, World.Watched, World.ClosedOnce, World.FreedOnce, World.Collectable;
  }

  lemma FreeOwning(w: World)
    requires w.Inv() && w.FreeReady()
    ensures w.Free().Owning()
  {
    hide World.Watched, World.ClosedOnce, World.FreedOnce, World.Collectable;
  }

  lemma FreeWatched(w: World)
    requires w.Inv() && w.FreeReady()
    ensures w.Free().Watched()
  {
    hide World.Owning, World.ClosedOnce, World.FreedOnce, World.Collectable;
  }

  lemma FreeClosedOnce(w: World)
    requires w.Inv() && w.FreeReady()
    ensures w.Free().ClosedOnce()
  {
  }

  lemma FreeRest(w: World)
    requires w.Inv() && w.FreeReady()
    ensures w.Free().FreedOnce() && w.Free().Collectable()
    ensures w.Settled() ==> w.Free().Settled()
  {
    hide World.Owning, World.Watched, World.ClosedOnce;
  }

  lemma FinishKeepsInv(w: World, c: Address)
    requires w.Inv() && c in w.https
    ensures w.Finish(c).Inv() && c in w.Finish(c).scheduled
  {
    hide World.Paired, World.Owning, World.Watched, World.ClosedOnce, World.FreedOnce, World.Collectable;
    FinishKeepsRest(w, c);
    FinishCollectable(w, c);
  }

  /** What does not look at the collector's list. */
  lemma FinishKeepsRest(w: World, c: Address)
    requires w.Inv()
    ensures var w' := w.Finish(c); w'.Paired() && w'.Owning() && w'.Watched() && w'.ClosedOnce() && w'.FreedOnce()
  {
    hide World.Paired, World.Owning, World.Watched, World.ClosedOnce, World.FreedOnce, World.Collectable;
    FinishPaired(w, c); FinishOwning(w, c); FinishWatched(w, c); FinishCounts(w, c);
  }

  lemma FinishPaired(w: World, c: Address)
    requires w.Inv()
    ensures w.Finish(c).Paired()
  {
    hide World.Owning, World.Watched, World.ClosedOnce, World.FreedOnce, World.Collectable;
  }

  lemma FinishOwning(w: World, c: Address)
    requires w.Inv()
    ensures w.Finish(c).Owning()
  {
    hide World.Paired, World.Watched, World.ClosedOnce, World.FreedOnce, World.Collectable;
  }

  lemma FinishWatched(w: World, c: Address)
    requires w.Inv()
    ensures w.Finish(c).Watched()
  {
    hide World.Paired, World.Owning, World.ClosedOnce, World.FreedOnce, World.Collectable;
  }

  lemma FinishCounts(w: World, c: Address)
    requires w.Inv()
    ensures w.Finish(c).ClosedOnce() && w.Finish(c).FreedOnce()
  {
    hide World.Paired, World.Owning, World.Watched, World.Collectable;
  }

  lemma FinishCollectable(w: World, c: Address)
    requires w.Inv() && c in w.https
    ensures w.Finish(c).Collectable() && c in w.Finish(c).scheduled
  {
    hide World.Paired, World.Owning, World.Watched, World.ClosedOnce, World.FreedOnce;
  }

  lemma RespondKeepsInv(w: World, c: Address, pending: string, last: bool)
    requires w.Inv() && c in w.https
    ensures w.Respond(c, pending, last).Inv()
    ensures w.Settled() ==> w.Respond(c, pending, last).Settled()
  {
    hide World.Paired, World.Owning, World.Watched, World.ClosedOnce, World.FreedOnce, World.Collectable, World.Settled;
    RespondPaired(w, c, pending, last);
    RespondConnections(w, c, pending, last);
    RespondRest(w, c, pending, last);
  }

  lemma RespondPaired(w: World, c: Address, pending: string, last: bool)
    requires w.Inv() && c in w.https
    ensures w.Respond(c, pending, last).Paired()
    ensures w.Settled() ==> w.Respond(c, pending, last).Settled()
  {
    hide World.Owning, World.Watched, World.ClosedOnce, World.FreedOnce, World.Collectable;
  }

  lemma RespondConnections(w: World, c: Address, pending: string, last: bool)
    requires w.Inv() && c in w.https
    ensures var w' := w.Respond(c, pending, last); w'.Owning() && w'.Watched() && w'.ClosedOnce()
  {
    hide World.Paired, World.FreedOnce, World.Collectable;
  }

  lemma RespondRest(w: World, c: Address, pending: string, last: bool)
    requires w.Inv() && c in w.https
    ensures w.Respond(c, pending, last).FreedOnce() && w.Respond(c, pending, last).Collectable()
  {
    hide World.Paired, World.Owning, World.Watched, World.ClosedOnce;
  }

  lemma CloseKeepsInv(w: World, t: Address)
    requires w.Inv() && t in w.tcps
    ensures w.CloseTcp(t).Inv() && w.CloseTcp(t).tcps[t].fd == CLOSED
  {
    hide World.Paired, World.Owning, World.Watched, World.ClosedOnce, World.FreedOnce, World.Collectable;
    CloseTcpPaired(w, t); CloseTcpOwning(w, t); CloseTcpWatched(w, t); CloseTcpClosedOnce(w, t); CloseTcpRest(w, t);
  }

  lemma AddressesAreNew(w: World)
    requires w.Inv()
    ensures w.nextAddress !in w.tcps && w.nextAddress + 1 !in w.https
  {
  }

  /** What a connection that is not closed owns. */
  lemma Ownership(w: World, t: Address)
    requires w.Inv() && t in w.tcps
    ensures t in w.serial && w.tcps[t].data in w.https && w.https[w.tcps[t].data].tcp == t
    ensures w.tcps[t].fd < 0 ==> w.tcps[t].fd == CLOSED
    ensures w.tcps[t].fd >= 0 ==>
      var fd := w.tcps[t].fd;
      fd in w.open && w.open[fd] == w.serial[t] && fd in w.watches && w.watches[fd] == ConnectionHandlers(t)
  {
  }

  /** Closing a connection and then running its finish callback leaves nobody closed but unscheduled. */
  lemma CloseFinishSettles(w: World, t: Address)
    requires w.Inv() && w.Settled() && t in w.tcps
    ensures var c := w.tcps[t].data;
            c in w.https && w.CloseTcp(t).https == w.https && w.CloseTcp(t).Finish(c).Settled()
    ensures w.tcps[t].fd != CLOSED ==> w.tcps[t].fd !in w.CloseTcp(t).watches
  {
    hide World.Watched, World.ClosedOnce, World.FreedOnce, World.Collectable;
  }

  /** What a read does, by what was received. */
  lemma ReadDoes(w: World, t: Address, received: Received)
    requires t in w.tcps && w.tcps[t].data in w.https
    ensures var c, w' := w.tcps[t].data, w.HandleRead(t, received); var h := w.https[c];
      && w' == w.(https := w'.https, scheduled := w'.scheduled)
      && w'.https == w.https[c := match received
                                  case RecvData(served, _) => h.(pending := h.pending + Texts(served), last := LastOf(served, h.last))
                                  case _ => h]
      && w'.scheduled == match received
                         case RecvEmpty => w.scheduled
                         case RecvError(again) => if again || c in w.scheduled then w.scheduled else [c] + w.scheduled
                         case RecvData(_, accepted) => if accepted || c in w.scheduled then w.scheduled else [c] + w.scheduled
  {
    var c := w.tcps[t].data;
    if received.RecvData? {
      AnsweredIs(w.https[c], received.served);
    }
    assert w.https[c := w.https[c]] == w.https;
  }

  /** What closing a connection and finishing it does. */
  lemma CloseDoes(w: World, t: Address)
    requires w.Inv() && t in w.tcps
    ensures var c, w', fd := w.tcps[t].data, w.HandleClose(t), w.tcps[t].fd;
      && w'.https == w.https && w'.tcps == w.tcps[t := w.tcps[t].(fd := CLOSED)]
      && w'.scheduled == (if c in w.scheduled then w.scheduled else [c] + w.scheduled)
      && t in w.serial
      && (if fd == CLOSED then w'.open == w.open && w'.watches == w.watches && w'.closes == w.closes
          else w'.open == w.open - {fd} && w'.watches == w.watches - {fd} && w'.closes == w.closes + multiset{w.serial[t]})
  {
    hide World.Inv;
    Ownership(w, t);
    if w.tcps[t].fd == CLOSED {
      assert w.tcps[t := w.tcps[t].(fd := CLOSED)] == w.tcps;
    }
  }

  /** What a write does: it hands over the front of what is pending, or closes a connection that is drained and marked last. */
  lemma WriteDoes(w: World, t: Address)
    requires w.Inv() && t in w.tcps && w.tcps[t].data in w.https
    ensures var c, w' := w.tcps[t].data, w.HandleWrite(t); var h := w.https[c];
      && (h.pending != "" ==>
            && w' == w.(https := w.https[c := h.(pending := h.pending[|Front(h.pending, BUFSIZE)|..])])
            && Front(h.pending, BUFSIZE) + w'.https[c].pending == h.pending && Front(h.pending, BUFSIZE) != "")
      && (h.pending == "" && !h.last ==> w' == w)
      && (h.pending == "" && h.last ==> w' == w.HandleClose(t))
  {
    hide World.Inv;
  }

  lemma FinishSettles(w: World, c: Address)
    requires w.Settled()
    ensures w.Finish(c).Settled()
  {
  }

  lemma BetweenPasses(w: World)
    requires w.Inv() && w.Settled() && w.scheduled == []
    ensures w.AtRest()
  {
    hide World.Inv, World.Settled;
    CountsAtRest(w);
    OwnersAtRest(w);
    WatchesAtRest(w);
  }

  lemma CountsAtRest(w: World)
    requires w.Inv()
    ensures forall c :: w.frees[c] == if c in w.gone then 1 else 0
    ensures forall c :: c in w.gone ==> c !in w.https && w.closes[w.gone[c]] == 1
    ensures forall f :: w.closes[f] <= 1
  {
    hide World.Paired, World.Owning, World.Watched, World.Collectable;
  }

  lemma OwnersAtRest(w: World)
    requires w.Inv() && w.Settled() && w.scheduled == []
    ensures forall t :: t in w.tcps ==>
      w.tcps[t].data in w.https && t in w.serial && w.tcps[t].fd in w.open && w.open[w.tcps[t].fd] == w.serial[t]
  {
    hide World.Watched, World.ClosedOnce, World.FreedOnce, World.Collectable;
  }

  lemma WatchesAtRest(w: World)
    requires w.Inv()
    ensures forall fd :: fd in w.watches && fd != w.listenFd ==>
      exists t :: t in w.tcps && w.tcps[t].fd == fd && w.watches[fd] == ConnectionHandlers(t)
  {
    hide World.Paired, World.ClosedOnce, World.FreedOnce, World.Collectable, ConnectionHandlers;
    forall fd | fd in w.watches && fd != w.listenFd
      ensures exists t :: t in w.tcps && w.tcps[t].fd == fd && w.watches[fd] == ConnectionHandlers(t)
    {
      var t := w.watches[fd][Read].1;
      assert t in w.tcps && w.tcps[t].fd == fd && w.watches[fd] == ConnectionHandlers(t);
    }
  }

  /** Closing what the collector is about to free. */
  lemma CloseScheduledSettles(w: World, t: Address)
    requires w.Inv() && w.Settled() && t in w.tcps && |w.scheduled| > 0 && w.tcps[t].data == w.scheduled[0]
    ensures w.CloseTcp(t).Inv() && w.CloseTcp(t).Settled() && w.CloseTcp(t).FreeReady()
  {
    CloseKeepsInv(w, t);
  }

  lemma ScheduledIsLive(w: World)
    requires w.Inv() && |w.scheduled| > 0
    ensures w.scheduled[0] in w.https && w.https[w.scheduled[0]].tcp in w.tcps
    ensures w.tcps[w.https[w.scheduled[0]].tcp].data == w.scheduled[0]
    ensures w.scheduled[0] !in w.scheduled[1..]
  {
  }

  lemma FreedFacts(w: World)
    requires w.Inv()
    ensures forall c :: c in w.gone ==> w.frees[c] == 1
  {
  }

  /** A watch's handler is the listener's, or one of a live connection's own three. */
  lemma HandlerOwner(w: World, fd: int, kind: Kind)
    requires w.Inv() && fd in w.watches && kind in w.watches[fd]
    ensures var (callback, data) := w.watches[fd][kind];
      if fd == w.listenFd then callback == IncomingConnection
      else fd != CLOSED && data in w.tcps && w.tcps[data].fd == fd && w.tcps[data].data in w.https
           && callback == match kind case Read => ReadyRead case Write => ReadyWrite case Close => PeerClosed
  {
  }

  /** The nodes left in memory were there before, for the same descriptors. */
  ghost predicate NodesKept(before: map<Address, Node>, after: map<Address, Node>) {
    forall a :: a in after ==> a in before && after[a].entry.fd == before[a].entry.fd
  }

  /** A node stays for its descriptor, and in memory as long as the descriptor is watched. */
  ghost predicate NodesFollow(before: map<Address, Node>, after: map<Address, Node>, watches: Watches) {
    forall a :: a in before ==>
      && (a in after ==> after[a].entry.fd == before[a].entry.fd)
      && (before[a].entry.fd in watches ==> a in after)
  }

  /** Closing and freeing never start a watch. */
  lemma DestroyShrinks(w: World, t: Address)
    requires t in w.tcps
    ensures w.CloseTcp(t).watches.Keys <= w.watches.Keys && w.CloseTcp(t).https == w.https
    ensures w.CloseTcp(t).FreeReady() ==> w.CloseTcp(t).Free().watches == w.CloseTcp(t).watches
  {
  }

  /**
    Destroying a connection closes its own file or nothing: what the kernel has since opened under the same
    number stays open, because the number was given up when the file was closed.
   */
  lemma DestroyClosesOwnFile(w: World)
    requires w.Inv() && w.Settled() && |w.scheduled| > 0
    ensures w.scheduled[0] in w.https && w.https[w.scheduled[0]].tcp in w.tcps && w.https[w.scheduled[0]].tcp in w.serial
    ensures var t, w' := w.https[w.scheduled[0]].tcp, w.Next(CollectNext);
      && w'.scheduled == w.scheduled[1..] && w.scheduled[0] in w'.gone && w.scheduled[0] !in w'.https
      && w'.closes == w.closes + (if w.tcps[t].fd == CLOSED then multiset{} else multiset{w.serial[t]})
      && forall fd :: fd in w.open && w.open[fd] != w.serial[t] ==> fd in w'.open && w'.open[fd] == w.open[fd]
  {
    hide World.Watched, World.ClosedOnce, World.FreedOnce, World.Collectable, World.Settled, World.Inv;
    ScheduledIsLive(w);
    var t := w.https[w.scheduled[0]].tcp;
    CloseScheduledSettles(w, t);
    Ownership(w, t);
  }

  // ----------------------------------------------------------------------------------------------
  // What the loop did
  // ----------------------------------------------------------------------------------------------

  /** The world and the event loop's entries: which descriptor the node at each address is for. */
  datatype Loop = Loop(world: World, entries: map<Address, int>) {
    /** One entry for each watched descriptor, and none for any other. */
    ghost predicate Fits() {
      && (forall a :: a in entries ==> entries[a] in world.watches)
      && (forall fd :: fd in world.watches ==> exists a :: a in entries && entries[a] == fd)
      && (forall a, b :: a in entries && b in entries && entries[a] == entries[b] ==> a == b)
    }

    /** Entries keep their descriptor, and stay as long as it is watched. */
    ghost predicate FollowedBy(l: Loop) {
      && l.Fits()
      && forall a :: a in entries ==>
           && (a in l.entries ==> l.entries[a] == entries[a])
           && (entries[a] in l.world.watches ==> a in l.entries)
    }

    /** The loop has become l by this turn. */
    ghost predicate Took(turn: Turn, l: Loop) {
      && FollowedBy(l)
      && match turn
         case Deliver(ready, kind) =>
           l.world == if Flagged(ready, kind) && ready.ec in entries
                      then world.Handle(entries[ready.ec], kind, ready.received, ready.accepted)
                      else world
         case Drain => l.world == world.Drained(|world.scheduled|)
    }
  }

  /** One kind of one event, or the collector's work after a pass. */
  datatype Turn = Deliver(ready: Ready, kind: Kind) | Drain

  predicate Flagged(ready: Ready, kind: Kind) {
    match kind case Close => ready.peerClosed case Read => ready.readable case Write => ready.writable
  }

  /** Each event is looked at for close, then read, then write. */
  function EventTurns(batch: seq<Ready>): seq<Turn> {
    if batch == [] then [] else
      var ready := batch[|batch| - 1];
      EventTurns(batch[..|batch| - 1]) + [Deliver(ready, Close), Deliver(ready, Read), Deliver(ready, Write)]
  }

  /** All events of a pass, then the collector, pass after pass. */
  function Turns(passes: seq<seq<Ready>>): seq<Turn> {
    if passes == [] then [] else Turns(passes[..|passes| - 1]) + EventTurns(passes[|passes| - 1]) + [Drain]
  }

  /** The loop went from first to last by these turns, one after the other. */
  ghost predicate Traced(trace: seq<Loop>, turns: seq<Turn>, first: Loop, last: Loop) {
    && |trace| == |turns| + 1 && trace[0] == first && trace[|turns|] == last
    && forall i, j :: 0 <= i < |turns| && j == i + 1 ==> trace[i].Took(turns[i], trace[j])
  }

  lemma TracedOn(trace: seq<Loop>, turns: seq<Turn>, first: Loop, middle: Loop, turn: Turn, last: Loop)
    requires Traced(trace, turns, first, middle) && middle.Took(turn, last)
    ensures Traced(trace + [last], turns + [turn], first, last)
  {
    hide Loop.Took;
  }

  lemma TracedNothing(l: Loop)
    ensures Traced([l], [], l, l) && Turns([]) == []
  {
  }

  lemma TracedEnds(trace: seq<Loop>, turns: seq<Turn>, first: Loop, last: Loop)
    requires Traced(trace, turns, first, last)
    ensures |trace| > 0 && trace[0] == first
  {
  }

  lemma EventTurnsNone(batch: seq<Ready>)
    ensures EventTurns(batch[..0]) == []
  {
  }

  lemma NodesStay(memory: map<Address, Node>, watches: Watches)
    ensures NodesKept(memory, memory) && NodesFollow(memory, memory, watches)
  {
  }

  lemma NodesShrink(before: map<Address, Node>, middle: map<Address, Node>, after: map<Address, Node>, w: Watches, w': Watches)
    requires NodesKept(before, middle) && NodesFollow(before, middle, w)
    requires NodesKept(middle, after) && NodesFollow(middle, after, w') && w'.Keys <= w.Keys
    ensures NodesKept(before, after) && NodesFollow(before, after, w')
  {
  }

  lemma EventTurnsStep(batch: seq<Ready>, i: nat)
    requires i < |batch|
    ensures EventTurns(batch[..i + 1]) == EventTurns(batch[..i]) + [Deliver(batch[i], Close), Deliver(batch[i], Read), Deliver(batch[i], Write)]
  {
    assert batch[..i + 1][..i] == batch[..i];
  }

  lemma TurnsStep(passes: seq<seq<Ready>>, p: nat)
    requires p < |passes|
    ensures Turns(passes[..p + 1]) == Turns(passes[..p]) + EventTurns(passes[p]) + [Drain]
  {
    assert passes[..p + 1][..p] == passes[..p];
  }

  lemma HandleKeepsInv(w: World, fd: int, kind: Kind, received: Received, candidate: int)
    requires w.Inv() && w.Settled()
    ensures w.Handle(fd, kind, received, candidate).Inv() && w.Handle(fd, kind, received, candidate).Settled()
  {
    hide World.Inv, World.Settled, World.CloseTcp, World.Finish, World.Respond, World.Accept;
    if fd in w.watches && kind in w.watches[fd] {
      HandlerOwner(w, fd, kind);
      var (callback, t) := w.watches[fd][kind];
      match callback {
        case IncomingConnection =>
          if candidate >= 0 && candidate !in w.open {
            AcceptKeepsInv(w, candidate, w.nextAddress, w.nextAddress + 1);
          }
        case ReadyRead => ReadKeepsInv(w, t, received);
        case ReadyWrite =>
          var c := w.tcps[t].data;
          RespondKeepsInv(w, c, w.https[c].pending[|HandedOver(w.https[c].pending)|..], w.https[c].last);
          PeerCloseKeepsInv(w, t);
        case PeerClosed => PeerCloseKeepsInv(w, t);
      }
    }
  }

  lemma PeerCloseKeepsInv(w: World, t: Address)
    requires w.Inv() && w.Settled() && t in w.tcps
    ensures w.HandleClose(t).Inv() && w.HandleClose(t).Settled()
  {
    hide World.Inv, World.Settled, World.CloseTcp, World.Finish;
    CloseKeepsInv(w, t);
    CloseFinishSettles(w, t);
    FinishKeepsInv(w.CloseTcp(t), w.tcps[t].data);
  }

  lemma ReadKeepsInv(w: World, t: Address, received: Received)
    requires w.Inv() && w.Settled() && t in w.tcps && w.tcps[t].data in w.https
    ensures w.HandleRead(t, received).Inv() && w.HandleRead(t, received).Settled()
  {
    hide World.Inv, World.Settled, World.Finish;
    var c := w.tcps[t].data;
    FinishKeepsInv(w, c);
    FinishSettles(w, c);
    if received.RecvData? {
      var h := Answered(w.https[c], received.served);
      RespondKeepsInv(w, c, h.pending, h.last);
      FinishKeepsInv(w.Respond(c, h.pending, h.last), c);
      FinishSettles(w.Respond(c, h.pending, h.last), c);
    }
  }

  lemma StepKeepsInv(w: World, step: Step)
    requires w.Inv() && w.Settled()
    ensures w.Next(step).Inv() && w.Next(step).Settled()
  {
    hide World.Inv, World.Settled, World.CloseTcp, World.Free, World.FreeReady, World.Handle;
    match step
    case Event(fd, ready) =>
      HandleKeepsInv(w, fd, Close, ready.received, ready.accepted);
      var w1 := w.HandleIf(ready.peerClosed, fd, Close, ready);
      HandleKeepsInv(w1, fd, Read, ready.received, ready.accepted);
      var w2 := w1.HandleIf(ready.readable, fd, Read, ready);
      HandleKeepsInv(w2, fd, Write, ready.received, ready.accepted);
    case CollectNext =>
      if |w.scheduled| > 0 {
        ScheduledIsLive(w);
        var t := w.https[w.scheduled[0]].tcp;
        CloseScheduledSettles(w, t);
        FreeKeepsInv(w.CloseTcp(t));
      }
  }

  /**
    Any interleaving of kernel events and frees, on any descriptors and with any answers of the system calls:
    whenever the collector is empty, the world is at rest.
   */
  lemma {:induction false} EveryRunIsSafe(w: World, steps: seq<Step>)
    requires w.Inv() && w.Settled()
    ensures w.After(steps).Inv() && w.After(steps).Settled()
    ensures w.After(steps).scheduled == [] ==> w.After(steps).AtRest()
    decreases |steps|
  {
    hide World.Inv, World.Settled, World.AtRest, World.Next;
    if steps == [] {
      if w.scheduled == [] {
        BetweenPasses(w);
      }
    } else {
      StepKeepsInv(w, steps[0]);
      EveryRunIsSafe(w.Next(steps[0]), steps[1..]);
    }
  }

  /** Adding the three watches one after the other to an unwatched descriptor. */
  lemma ThreeAdds(w: Watches, fd: int, t: Address)
    requires fd !in w
    ensures WithWatch(WithWatch(WithWatch(w, fd, Read, ReadyRead, t), fd, Write, ReadyWrite, t), fd, Close, PeerClosed, t)
         == w[fd := ConnectionHandlers(t)]
  {
    var w1 := WithWatch(w, fd, Read, ReadyRead, t);
    assert HandlersOf(w1, fd) == map[Read := (ReadyRead, t)];
    var w2 := WithWatch(w1, fd, Write, ReadyWrite, t);
    assert HandlersOf(w2, fd) == map[Read := (ReadyRead, t), Write := (ReadyWrite, t)];
  }

  /** Removing them again leaves the descriptor unwatched. */
  lemma ThreeRemoves(w: Watches, fd: int, t: Address)
    requires fd in w && w[fd] == ConnectionHandlers(t)
    ensures WithoutWatch(WithoutWatch(WithoutWatch(w, fd, Read), fd, Write), fd, Close) == w - {fd}
  {
    var w1 := WithoutWatch(w, fd, Read);
    assert HandlersOf(w1, fd) == map[Write := (ReadyWrite, t), Close := (PeerClosed, t)];
    var w2 := WithoutWatch(w1, fd, Write);
    assert HandlersOf(w2, fd) == map[Close := (PeerClosed, t)];
  }

  lemma WithoutShrinks(w: Watches, fd: int, kind: Kind)
    ensures WithoutWatch(w, fd, kind).Keys <= w.Keys
  {
  }

  lemma HandleUnwatched(w: World, fd: int, kind: Kind, received: Received, candidate: int)
    requires fd !in w.watches
    ensures w.Handle(fd, kind, received, candidate) == w
  {
  }

  class Collector {
    /** The pointers in the hand-linked list, head first. */
    var entries: seq<Address>

    constructor ()
      ensures entries == []
    {
      entries := [];
    }

    method ScheduleFree(data: Address)
      modifies this
      ensures entries == if data in old(entries) then old(entries) else [data] + old(entries)
    {
      var i := 0;
      while i < |entries|
        invariant i <= |entries| && data !in entries[..i]
      {
        if entries[i] == data {
          return;
        }
        i := i + 1;
      }
      entries := [data] + entries;
    }
  }

  class Server {
    const eloop: ELoop
    const collector: Collector
    const listenFd: int
    var https: map<Address, HTTPConnection>
    var tcps: map<Address, TcpConnection>
    var nextAddress: Address
    /** The kernel's descriptor table. */
    var open: map<int, nat>
    ghost var serial: map<Address, nat>
    var nextSerial: nat
    ghost var closes: multiset<nat>
    ghost var frees: multiset<Address>
    ghost var gone: map<Address, nat>

    ghost function State(): World
      requires eloop.Valid()
      reads this, eloop, collector
    {
      World(https, tcps, eloop.Watches(), collector.entries, listenFd, open, serial, nextSerial, nextAddress, closes, frees, gone)
    }

    ghost predicate Valid()
      reads this, eloop, collector
    {
      eloop.Valid() && State().Inv()
    }

    ghost function TheLoop(): Loop
      requires eloop.Valid()
      reads this, eloop, collector
    {
      Loop(State(), map a | a in eloop.memory :: eloop.memory[a].entry.fd)
    }

    /** What the nodes in memory say of the loop after a turn. */
    twostate lemma LoopFollows()
      requires old(eloop.Valid()) && eloop.Valid()
      requires NodesFollow(old(eloop.memory), eloop.memory, eloop.Watches())
      ensures old(TheLoop()).FollowedBy(TheLoop())
    {
      hide ELoop.Valid, ELoop.Watches, World.Inv;
      eloop.OneEntryPerFd();
      var l := TheLoop();
      forall fd | fd in l.world.watches ensures exists a :: a in l.entries && l.entries[a] == fd {
        var a :| a in eloop.memory && eloop.memory[a].entry.fd == fd;
        assert a in l.entries;
      }
    }

    /** The server listens on an open descriptor and watches it for connections. */
    constructor (listenFd: int)
      requires listenFd >= 0
      ensures Valid() && State().Settled() && fresh(eloop) && fresh(collector) && this.listenFd == listenFd
      ensures https == map[] && collector.entries == [] && gone == map[]
      ensures listenFd in eloop.Watches()
    {
      eloop := new ELoop();
      collector := new Collector();
      this.listenFd := listenFd;
      https, tcps, nextAddress := map[], map[], SERVER + 1;
      open, serial, nextSerial := map[listenFd := 0], map[], 1;
      closes, frees, gone := multiset{}, multiset{}, map[];
      new;
      hide ELoop.Valid, ELoop.Watches, World.Inv, World.Settled;
      eloop.AddFdWatch(listenFd, Read, IncomingConnection, SERVER);
      InitialInv(State());
    }

    /** close(2); the descriptor must still mean the file it was opened for. */
    method CloseDescriptor(fd: int, ghost file: nat)
      requires fd in open && open[fd] == file
      modifies `open, `closes
      ensures open == old(open) - {fd} && closes == old(closes) + multiset{file}
    {
      open, closes := open - {fd}, closes + multiset{file};
    }

    method TcpConnectionClose(t: Address)
      requires Valid() && t in tcps
      modifies this, eloop
      ensures Valid() && State() == old(State()).CloseTcp(t)
      ensures NodesKept(old(eloop.memory), eloop.memory)
      ensures NodesFollow(old(eloop.memory), eloop.memory, eloop.Watches())
      ensures tcps[t].fd == CLOSED
    {
      hide ELoop.Valid, World.Inv, ELoop.Watches, WithoutWatch;
      CloseKeepsInv(State(), t);
      Ownership(State(), t);
      if tcps[t].fd >= 0 {
        var fd := tcps[t].fd;
        ThreeRemoves(eloop.Watches(), fd, t);
        var _ := eloop.RemoveFdWatch(fd, Read);
        WithoutShrinks(eloop.Watches(), fd, Write);
        var _ := eloop.RemoveFdWatch(fd, Write);
        WithoutShrinks(eloop.Watches(), fd, Close);
        var _ := eloop.RemoveFdWatch(fd, Close);
        CloseDescriptor(fd, serial[t]);
        tcps := tcps[t := tcps[t].(fd := CLOSED)];
      }
    }

    /** on_request_finish: the connection is handed to the collector, however often it finishes. */
    method OnRequestFinish(c: Address)
      requires Valid() && c in https
      modifies collector
      ensures Valid() && State() == old(State()).Finish(c)
    {
      hide ELoop.Valid, ELoop.Watches, World.Inv;
      FinishKeepsInv(State(), c);
      collector.ScheduleFree(c);
    }

    method OnRead(t: Address, received: Received)
      requires Valid() && State().Settled() && t in tcps && tcps[t].data in https
      modifies this, collector
      ensures Valid() && State().Settled()
      ensures State() == old(State()).HandleRead(t, received)
      ensures tcps == old(tcps) && open == old(open)
      ensures var c := old(tcps)[t].data; var h := old(https)[c];
        && https == old(https)[c := match received
                                    case RecvData(served, _) => h.(pending := h.pending + Texts(served), last := LastOf(served, h.last))
                                    case _ => h]
        && collector.entries == match received
                                case RecvEmpty => old(collector.entries)
                                case RecvError(again) =>
                                  if again || c in old(collector.entries) then old(collector.entries) else [c] + old(collector.entries)
                                case RecvData(_, accepted) =>
                                  if accepted || c in old(collector.entries) then old(collector.entries) else [c] + old(collector.entries)
    {
      hide ELoop.Valid, ELoop.Watches, World.Inv, World.Settled;
      var c := tcps[t].data;
      ReadDoes(State(), t, received);
      match received
      case RecvError(again) =>
        if !again {
          FinishSettles(State(), c);
          OnRequestFinish(c);
        }
      case RecvEmpty =>
      case RecvData(served, accepted) =>
        var i := 0;
        ghost var h := https[c];
        while i < |served|
          invariant i <= |served|
          invariant Valid() && State().Settled() && c in https
          invariant https[c] == Answered(h, served[..i])
          invariant State() == old(State()).Respond(c, https[c].pending, https[c].last)
        {
          assert served[..i + 1][..i] == served[..i];
          OnNewRequest(c, served[i]);
          i := i + 1;
        }
        assert served[..i] == served;
        if !accepted {
          FinishSettles(State(), c);
          OnRequestFinish(c);
        }
    }

    /** Marks the response as the request says, then the container writes it. */
    method OnNewRequest(c: Address, s: Served)
      requires Valid() && State().Settled() && c in https
      modifies `https
      ensures Valid() && State().Settled()
      ensures State() == old(State()).Respond(c, old(https)[c].pending + s.text, s.last)
    {
      hide ELoop.Valid, ELoop.Watches, World.Inv, World.Settled;
      RespondKeepsInv(State(), c, https[c].pending + s.text, s.last);
      https := https[c := https[c].(last := s.last)];
      https := https[c := https[c].(pending := https[c].pending + s.text)];
      assert State() == old(State()).Respond(c, old(https)[c].pending + s.text, s.last);
    }

    method OnWrite(t: Address) returns (sent: string)
      requires Valid() && State().Settled() && t in tcps && tcps[t].data in https
      modifies this, eloop, collector
      ensures Valid() && State().Settled()
      ensures State() == old(State()).HandleWrite(t)
      ensures NodesKept(old(eloop.memory), eloop.memory)
      ensures NodesFollow(old(eloop.memory), eloop.memory, eloop.Watches())
      ensures sent == HandedOver(old(https)[old(tcps)[t].data].pending)
      ensures var c := old(tcps)[t].data; var h := old(https)[c];
        && (h.pending != "" ==>
              && sent != "" && |sent| <= BUFSIZE && c in https && sent + https[c].pending == h.pending
              && https == old(https)[c := h.(pending := https[c].pending)]
              && tcps == old(tcps) && collector.entries == old(collector.entries) && open == old(open))
        && (h.pending == "" && !h.last ==> sent == "" && State() == old(State()))
        && (h.pending == "" && h.last ==>
              sent == "" && https == old(https) && t in tcps && tcps[t].fd == CLOSED && c in collector.entries)
    {
      hide ELoop.Valid, ELoop.Watches, World.Inv, World.Settled;
      var c := tcps[t].data;
      WriteDoes(State(), t);
      CloseDoes(State(), t);
      sent := HandedOver(https[c].pending);
      if |sent| > 0 {
        RespondKeepsInv(State(), c, https[c].pending[|sent|..], https[c].last);
        https := https[c := https[c].(pending := https[c].pending[|sent|..])];
      } else if https[c].last {
        OnPeerClose(t);
      }
    }

    /** Closes the connection and runs its finish callback. */
    method OnPeerClose(t: Address)
      requires Valid() && State().Settled() && t in tcps && tcps[t].data in https
      modifies this, eloop, collector
      ensures Valid() && State().Settled()
      ensures State() == old(State()).HandleClose(t)
      ensures old(tcps)[t].fd != CLOSED ==> old(tcps)[t].fd !in eloop.Watches()
      ensures NodesKept(old(eloop.memory), eloop.memory)
      ensures NodesFollow(old(eloop.memory), eloop.memory, eloop.Watches())
      ensures https == old(https) && tcps == old(tcps)[t := old(tcps)[t].(fd := CLOSED)]
      ensures var c := old(tcps)[t].data;
        collector.entries == if c in old(collector.entries) then old(collector.entries) else [c] + old(collector.entries)
      ensures old(tcps)[t].fd != CLOSED ==> open == old(open) - {old(tcps)[t].fd}
    {
      hide ELoop.Valid, ELoop.Watches, World.Inv, World.Settled;
      var c := tcps[t].data;
      CloseDoes(State(), t);
      CloseFinishSettles(State(), t);
      TcpConnectionClose(t);
      OnRequestFinish(c);
    }

    /** accept4: a descriptor that is not open, which may well have been open before, or -1. */
    method Accept4(candidate: int) returns (fd: int)
      modifies `open, `nextSerial
      ensures if candidate >= 0 && candidate !in old(open)
              then fd == candidate && open == old(open)[fd := old(nextSerial)] && nextSerial == old(nextSerial) + 1
              else fd == -1 && open == old(open) && nextSerial == old(nextSerial)
    {
      if candidate < 0 || candidate in open {
        return -1;
      }
      fd := candidate;
      open, nextSerial := open[fd := nextSerial], nextSerial + 1;
    }

    /** A client arrives: the connection objects are made and the three watches installed. */
    method OnIncoming(candidate: int)
      requires Valid() && State().Settled()
      modifies this, eloop
      ensures Valid() && State().Settled()
      ensures if candidate >= 0 && candidate !in old(open)
              then State() == old(State()).Accept(candidate, old(nextAddress), old(nextAddress) + 1)
              else State() == old(State())
      ensures NodesKept(eloop.memory, old(eloop.memory))
      ensures candidate >= 0 && candidate !in old(open) ==>
        exists t, c :: t !in old(tcps) && c !in old(https)
          && tcps == old(tcps)[t := TcpConnection(candidate, c)] && https == old(https)[c := HTTPConnection(t, "", false)]
          && candidate !in old(eloop.Watches()) && eloop.Watches() == old(eloop.Watches())[candidate := ConnectionHandlers(t)]
          && open == old(open)[candidate := old(nextSerial)] && collector.entries == old(collector.entries)
    {
      hide ELoop.Valid, ELoop.Watches, World.Inv, World.Settled, WithWatch, ConnectionHandlers;
      if candidate >= 0 && candidate !in open {
        AcceptKeepsInv(State(), candidate, nextAddress, nextAddress + 1);
        AddressesAreNew(State());
      }
      ghost var file := nextSerial;
      var fd := Accept4(candidate);
      if fd < 0 {
        return;
      }
      var t, c := nextAddress, nextAddress + 1;
      nextAddress := nextAddress + 2;
      tcps := tcps[t := TcpConnection(fd, c)];
      serial := serial[t := file];
      https := https[c := HTTPConnection(t, "", false)];
      SetCallbacks(t, fd);
    }

    /** tcp_connection_set_callbacks with all three callbacks. */
    method SetCallbacks(t: Address, fd: int)
      requires eloop.Valid() && fd >= 0 && fd !in eloop.Watches()
      modifies eloop
      ensures eloop.Valid() && eloop.Watches() == old(eloop.Watches())[fd := ConnectionHandlers(t)]
      ensures NodesKept(eloop.memory, old(eloop.memory))
    {
      hide ELoop.Valid, ELoop.Watches, WithWatch, ConnectionHandlers;
      ThreeAdds(eloop.Watches(), fd, t);
      eloop.AddFdWatch(fd, Read, ReadyRead, t);
      eloop.AddFdWatch(fd, Write, ReadyWrite, t);
      eloop.AddFdWatch(fd, Close, PeerClosed, t);
    }

    /** http_connection_destroy on the head of the collector's list, and taking that head off the list. */
    method DestroyFirst()
      requires Valid() && State().Settled() && |collector.entries| > 0 && collector.entries[0] in https
      requires https[collector.entries[0]].tcp in tcps
      modifies this, eloop, collector
      ensures Valid() && State().Settled()
      ensures var c := old(collector.entries)[0];
              var closed := old(State()).CloseTcp(old(https)[c].tcp);
              closed.FreeReady() && State() == closed.Free()
      ensures State() == old(State()).Next(CollectNext)
      ensures eloop.Watches().Keys <= old(eloop.Watches().Keys)
      ensures NodesKept(old(eloop.memory), eloop.memory)
      ensures NodesFollow(old(eloop.memory), eloop.memory, eloop.Watches())
    {
      hide ELoop.Valid, ELoop.Watches, World.Inv, World.Settled, World.CloseTcp, World.Free, World.FreeReady, NodesKept, NodesFollow;
      var c := collector.entries[0];
      var next := collector.entries[1..];
      var t := https[c].tcp;
      ScheduledIsLive(State());
      CloseScheduledSettles(State(), t);
      DestroyShrinks(State(), t);
      TcpConnectionClose(t);
      Release(c, t, next);
    }

    /** memory_destroy of the two connection objects and of the list's head. */
    method Release(c: Address, t: Address, next: seq<Address>)
      requires Valid() && State().Settled() && State().FreeReady()
      requires c == collector.entries[0] && t == https[c].tcp && next == collector.entries[1..]
      modifies this, collector
      ensures Valid() && State().Settled() && State() == old(State()).Free()
    {
      hide ELoop.Valid, ELoop.Watches, World.Inv, World.Settled;
      FreeKeepsInv(State());
      gone, frees, serial := gone[c := serial[t]], frees + multiset{c}, serial - {t};
      tcps := tcps - {t};
      https := https - {c};
      collector.entries := next;
    }

    /** Frees everything that is scheduled. */
    method Collect()
      requires Valid() && State().Settled()
      modifies this, eloop, collector
      ensures Valid() && State().Settled() && collector.entries == []
      ensures forall c :: c in https <==> c in old(https) && c !in old(collector.entries)
      ensures forall c :: c in old(collector.entries) ==> c in gone && frees[c] == 1
      ensures old(TheLoop()).Took(Drain, TheLoop())
    {
      hide ELoop.Valid, ELoop.Watches, World.Inv, World.Settled, World.Next, NodesKept, NodesFollow, Loop.FollowedBy;
      ghost var done := 0;
      NodesStay(eloop.memory, eloop.Watches());
      while |collector.entries| > 0
        invariant Valid() && State().Settled()
        invariant done <= |old(collector.entries)| && collector.entries == old(collector.entries)[done..]
        invariant State() == old(State()).Drained(done)
        invariant forall c :: c in https <==> c in old(https) && c !in old(collector.entries)[..done]
        invariant forall c :: c in old(collector.entries)[..done] ==> c in gone
        invariant NodesKept(old(eloop.memory), eloop.memory)
        invariant NodesFollow(old(eloop.memory), eloop.memory, eloop.Watches())
        decreases |collector.entries|
      {
        ScheduledIsLive(State());
        DestroyClosesOwnFile(State());
        ghost var middle, watches := eloop.memory, eloop.Watches();
        DestroyFirst();
        NodesShrink(old(eloop.memory), middle, eloop.memory, watches, eloop.Watches());
        done := done + 1;
      }
      FreedFacts(State());
      LoopFollows();
    }

    /** Runs the handlers of one event: close, then read, then write, each only if it is still installed. */
    method Dispatch(ready: Ready, ghost trace: seq<Loop>, ghost turns: seq<Turn>) returns (ghost trace': seq<Loop>)
      requires Valid() && State().Settled() && |trace| > 0 && Traced(trace, turns, trace[0], TheLoop())
      modifies this, eloop, collector
      ensures Valid() && State().Settled()
      ensures State() == if ready.ec in old(eloop.memory)
                         then old(State()).HandleAll(old(eloop.memory)[ready.ec].entry.fd, ready)
                         else old(State())
      ensures Traced(trace', turns + [Deliver(ready, Close), Deliver(ready, Read), Deliver(ready, Write)], trace[0], TheLoop())
    {
      hide ELoop.Valid, ELoop.Watches, World.Inv, World.Settled, World.Handle, Loop.Took, Traced;
      InvokeIf(ready.peerClosed, ready, Close);
      TracedOn(trace, turns, trace[0], old(TheLoop()), Deliver(ready, Close), TheLoop());
      trace' := trace + [TheLoop()];
      ghost var turns' := turns + [Deliver(ready, Close)];
      ghost var middle := TheLoop();
      if ready.ec in old(eloop.memory) && ready.ec !in eloop.memory {
        HandleUnwatched(State(), old(eloop.memory)[ready.ec].entry.fd, Read, ready.received, ready.accepted);
        HandleUnwatched(State(), old(eloop.memory)[ready.ec].entry.fd, Write, ready.received, ready.accepted);
      }
      InvokeIf(ready.readable, ready, Read);
      TracedOn(trace', turns', trace[0], middle, Deliver(ready, Read), TheLoop());
      trace', turns', middle := trace' + [TheLoop()], turns' + [Deliver(ready, Read)], TheLoop();
      if ready.ec in old(eloop.memory) && ready.ec !in eloop.memory {
        HandleUnwatched(State(), old(eloop.memory)[ready.ec].entry.fd, Write, ready.received, ready.accepted);
      }
      InvokeIf(ready.writable, ready, Write);
      TracedOn(trace', turns', trace[0], middle, Deliver(ready, Write), TheLoop());
      trace', turns' := trace' + [TheLoop()], turns' + [Deliver(ready, Write)];
      assert turns' == turns + [Deliver(ready, Close), Deliver(ready, Read), Deliver(ready, Write)];
    }

    /** One test of an event's flags. */
    method InvokeIf(flag: bool, ready: Ready, kind: Kind)
      requires Valid() && State().Settled() && flag == Flagged(ready, kind)
      modifies this, eloop, collector
      ensures Valid() && State().Settled()
      ensures old(TheLoop()).Took(Deliver(ready, kind), TheLoop())
      ensures ready.ec !in old(eloop.memory) ==> State() == old(State()) && ready.ec !in eloop.memory
      ensures ready.ec in old(eloop.memory) ==>
        var fd := old(eloop.memory)[ready.ec].entry.fd;
        && State() == old(State()).HandleIf(flag, fd, kind, ready)
        && (ready.ec in eloop.memory ==> eloop.memory[ready.ec].entry.fd == fd)
        && (ready.ec !in eloop.memory && kind != Write ==> fd !in eloop.Watches())
    {
      hide ELoop.Valid, ELoop.Watches, World.Inv, World.Settled, World.Handle, Loop.FollowedBy, NodesFollow;
      if flag {
        Invoke(ready, kind);
      } else {
        NodesStay(eloop.memory, eloop.Watches());
      }
      LoopFollows();
    }

    /** Calls the entry's handler for kind, if there is one; a freed entry has none. */
    method Invoke(ready: Ready, kind: Kind)
      requires Valid() && State().Settled()
      modifies this, eloop, collector
      ensures Valid() && State().Settled()
      ensures NodesFollow(old(eloop.memory), eloop.memory, eloop.Watches())
      ensures ready.ec !in old(eloop.memory) ==> State() == old(State()) && ready.ec !in eloop.memory
      ensures ready.ec in old(eloop.memory) ==>
        var fd := old(eloop.memory)[ready.ec].entry.fd;
        && State() == old(State()).Handle(fd, kind, ready.received, ready.accepted)
        && (ready.ec in eloop.memory ==> eloop.memory[ready.ec].entry.fd == fd)
        && (ready.ec !in eloop.memory && kind != Write ==> fd !in eloop.Watches())
    {
      hide ELoop.Valid, ELoop.Watches, World.Inv, World.Settled;
      hide World.HandleRead, World.HandleWrite, World.HandleClose, World.Accept;
      if ready.ec !in eloop.memory {
        return;
      }
      var entry := eloop.memory[ready.ec].entry;
      eloop.EntryIsWatched(ready.ec);
      if kind !in entry.handlers {
        return;
      }
      var (callback, data) := entry.handlers[kind];
      HandlerOwner(State(), entry.fd, kind);
      match callback {
        case IncomingConnection => OnIncoming(ready.accepted);
        case ReadyRead => OnRead(data, ready.received);
        case ReadyWrite => var _ := OnWrite(data);
        case PeerClosed => OnPeerClose(data);
      }
    }

    /**
      event_loop_run over any number of passes, each with any batch of events.  `trace` is the loop after each
      turn: every event is delivered, in order, kind by kind, and the collector is drained after each pass.
     */
    method Run(passes: seq<seq<Ready>>) returns (ghost trace: seq<Loop>)
      requires Valid() && State().Settled() && collector.entries == []
      modifies this, eloop, collector
      ensures Valid() && State().Settled() && collector.entries == []
      ensures State().AtRest()
      ensures Traced(trace, Turns(passes), old(TheLoop()), TheLoop())
    {
      hide ELoop.Valid, ELoop.Watches, World.Inv, World.Settled, World.AtRest, Traced, Loop.Took, Turns, EventTurns;
      BetweenPasses(State());
      trace := [TheLoop()];
      TracedNothing(TheLoop());
      assert passes[..0] == [];
      for p := 0 to |passes|
        invariant Valid() && State().Settled() && collector.entries == []
        invariant State().AtRest()
        invariant |trace| > 0 && trace[0] == old(TheLoop()) && Traced(trace, Turns(passes[..p]), trace[0], TheLoop())
      {
        ghost var turns := Turns(passes[..p]);
        EventTurnsNone(passes[p]);
        assert turns + [] == turns;
        for i := 0 to |passes[p]|
          invariant Valid() && State().Settled()
          invariant |trace| > 0 && trace[0] == old(TheLoop())
          invariant Traced(trace, turns + EventTurns(passes[p][..i]), trace[0], TheLoop())
        {
          EventTurnsStep(passes[p], i);
          ghost var so := turns + EventTurns(passes[p][..i]);
          trace := Dispatch(passes[p][i], trace, so);
          var ready := passes[p][i];
          assert so + [Deliver(ready, Close), Deliver(ready, Read), Deliver(ready, Write)] == turns + EventTurns(passes[p][..i + 1]);
          TracedEnds(trace, turns + EventTurns(passes[p][..i + 1]), old(TheLoop()), TheLoop());
        }
        assert passes[p][..|passes[p]|] == passes[p];
        ghost var before := TheLoop();
        Collect();
        TracedOn(trace, turns + EventTurns(passes[p]), trace[0], before, Drain, TheLoop());
        trace := trace + [TheLoop()];
        TurnsStep(passes, p);
        BetweenPasses(State());
      }
      assert passes[..|passes|] == passes;
    }
  }
}
