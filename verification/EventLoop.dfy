/**
  The event loop's watch list (src/eloop.c): a hand-linked list of per-descriptor entries that shadows
  the kernel's epoll interest set.  The list refines the map `watches` from descriptor and kind to handler.
 */
module EventLoop {
  import opened Prelude

  /** The callback kinds of src/eloop.h, in their order. */
  datatype Kind = Read | Write | Close {
    /** The epoll event bit of the kind: EPOLLIN, EPOLLOUT, EPOLLRDHUP. */
    function Bit(): bv32 {
      match this case Read => 0x1 case Write => 0x4 case Close => 0x2000
    }
  }

  /** The functions that are ever stored as a watch's callback. */
  datatype Callback = IncomingConnection | ReadyRead | ReadyWrite | PeerClosed

  /** What one descriptor is watched for. */
  type Handlers = map<Kind, (Callback, Address)>

  /** What the event loop watches: a partial map from descriptor and kind; a descriptor without handlers is absent. */
  type Watches = map<int, Handlers>

  ghost function HandlersOf(w: Watches, fd: int): Handlers {
    if fd in w then w[fd] else map[]
  }

  /** The handler of a descriptor and kind, if there is one. */
  ghost function Watched(w: Watches, fd: int, kind: Kind): Option<(Callback, Address)> {
    if fd in w && kind in w[fd] then Some(w[fd][kind]) else None
  }

  ghost function WithWatch(w: Watches, fd: int, kind: Kind, callback: Callback, data: Address): Watches {
    w[fd := HandlersOf(w, fd)[kind := (callback, data)]]
  }

  ghost function WithoutWatch(w: Watches, fd: int, kind: Kind): Watches {
    var rest := HandlersOf(w, fd) - {kind};
    if Empty(rest) then w - {fd} else w[fd := rest]
  }

  datatype Call = Add(fd: int, kind: Kind, callback: Callback, data: Address) | Remove(fd: int, kind: Kind)

  /** The watches after a sequence of calls that started from none. */
  ghost function AfterCalls(calls: seq<Call>): Watches {
    if calls == [] then map[] else
      var before := AfterCalls(calls[..|calls| - 1]);
      match calls[|calls| - 1]
      case Add(fd, kind, callback, data) => WithWatch(before, fd, kind, callback, data)
      case Remove(fd, kind) => WithoutWatch(before, fd, kind)
  }

  /** What the last call about a descriptor and kind said: a handler, or none. */
  ghost function LastWord(calls: seq<Call>, fd: int, kind: Kind): Option<(Callback, Address)> {
    if calls == [] then None else
      var last := calls[|calls| - 1];
      if last.fd != fd || last.kind != kind then LastWord(calls[..|calls| - 1], fd, kind)
      else if last.Add? then Some((last.callback, last.data))
      else None
  }

  /** Over every sequence of calls, a watch is installed exactly if the last call about it added it, with that handler. */
  lemma {:induction false} LastCallDecides(calls: seq<Call>, fd: int, kind: Kind)
    ensures var w := AfterCalls(calls);
            && LastWord(calls, fd, kind) == Watched(w, fd, kind)
            && (fd in w ==> !Empty(w[fd]))
  {
    if calls != [] {
      LastCallDecides(calls[..|calls| - 1], fd, kind);
    }
  }

  /** No kind is installed. */
  ghost predicate Empty(h: Handlers) {
    Read !in h && Write !in h && Close !in h
  }

  /**
    The payload of a list node.  The source's arrays `callbacks` and `datas`, indexed by kind, are one
    partial map: a null slot is an absent kind.
   */
  datatype Entry = Entry(fd: int, events: bv32, handlers: Handlers) {

    /** The mask has exactly the bits of the installed kinds. */
    ghost predicate Ok() {
      events == Mask(Read in handlers, Write in handlers, Close in handlers)
    }

    function Install(newFd: int, kind: Kind, callback: Callback, data: Address): (r: Entry)
      requires Ok()
      ensures r.Ok() && r.fd == newFd && r.handlers == handlers[kind := (callback, data)]
    {
      MaskUpdate(Read in handlers, Write in handlers, Close in handlers, kind);
      Entry(newFd, events | kind.Bit(), handlers[kind := (callback, data)])
    }

    function Uninstall(kind: Kind): (r: Entry)
      requires Ok()
      ensures r.Ok() && r.fd == fd && r.handlers == handlers - {kind}
      ensures r.events == 0 <==> Empty(r.handlers)
    {
      MaskUpdate(Read in handlers, Write in handlers, Close in handlers, kind);
      var rest := handlers - {kind};
      MaskUpdate(Read in rest, Write in rest, Close in rest, kind);
      Entry(fd, events & !kind.Bit(), rest)
    }
  }

  /** memory_create hands out zeroed memory. */
  const ZEROED := Entry(0, 0, map[])

  /** The event mask that has exactly the bits of the given kinds. */
  function Mask(r: bool, w: bool, c: bool): bv32 {
    (if r then Read.Bit() else 0) | (if w then Write.Bit() else 0) | (if c then Close.Bit() else 0)
  }

  /** Setting and clearing one kind's bit moves the mask exactly as setting and clearing its slot does. */
  lemma MaskUpdate(r: bool, w: bool, c: bool, k: Kind)
    ensures Mask(r, w, c) | k.Bit() == Mask(r || k.Read?, w || k.Write?, c || k.Close?)
    ensures Mask(r, w, c) & !k.Bit() == Mask(r && !k.Read?, w && !k.Write?, c && !k.Close?)
    ensures Mask(r, w, c) == 0 <==> !r && !w && !c
  {
  }

  /** A list node: the payload and the link to the next node. */
  datatype Node = Node(entry: Entry, next: Address)

  /**
    `chain` lists the nodes that hang off `head`: each is allocated, links to the one after it, and the
    last links to null.  The nodes are pairwise distinct, and nothing else is allocated.
   */
  ghost predicate Linked(head: Address, memory: map<Address, Node>, chain: seq<Address>) {
    && (forall i :: 0 <= i < |chain| ==> chain[i] in memory && chain[i] != NULL)
    && (forall a :: a in memory ==> a in chain)
    && (forall i, j :: 0 <= i < j < |chain| ==> chain[i] != chain[j])
    && (head == if |chain| == 0 then NULL else chain[0])
    && (forall i, j :: 0 <= i && j == i + 1 < |chain| ==> memory[chain[i]].next == chain[j])
    && (|chain| > 0 ==> memory[chain[|chain| - 1]].next == NULL)
  }

  /**
    The kernel's interest set is the list: every node is registered under its descriptor with its own mask
    and address, every registration comes from such a node, and no node is without a handler.
   */
  ghost predicate Mirrored(memory: map<Address, Node>, interest: map<int, (bv32, Address)>) {
    && (forall a :: a in memory ==>
          var e := memory[a].entry;
          e.Ok() && !Empty(e.handlers) && e.fd in interest && interest[e.fd] == (e.events, a))
    && (forall fd :: fd in interest ==> interest[fd].1 in memory && memory[interest[fd].1].entry.fd == fd)
  }

  /** What the list means. */
  ghost function WatchesOf(memory: map<Address, Node>, interest: map<int, (bv32, Address)>): Watches
    requires Mirrored(memory, interest)
  {
    map fd | fd in interest :: memory[interest[fd].1].entry.handlers
  }

  lemma LinkedPrepend(head: Address, memory: map<Address, Node>, chain: seq<Address>, a: Address, e: Entry)
    requires Linked(head, memory, chain) && a != NULL && a !in memory
    ensures Linked(a, memory[a := Node(e, head)], [a] + chain)
  {
  }

  lemma LinkedSetEntry(head: Address, memory: map<Address, Node>, chain: seq<Address>, a: Address, e: Entry)
    requires Linked(head, memory, chain) && a in memory
    ensures Linked(head, memory[a := memory[a].(entry := e)], chain)
  {
  }

  function Without(chain: seq<Address>, at: nat): (r: seq<Address>)
    requires at < |chain|
    ensures |r| == |chain| - 1
  {
    chain[..at] + chain[at + 1..]
  }

  /** Dropping one position of a repetition-free chain leaves exactly the other addresses, each once. */
  lemma WithoutKeepsOthers(chain: seq<Address>, at: nat)
    requires at < |chain|
    requires forall i, j :: 0 <= i < j < |chain| ==> chain[i] != chain[j]
    ensures var r := Without(chain, at);
            && (forall a :: a in r <==> a in chain && a != chain[at])
            && (forall i, j :: 0 <= i < j < |r| ==> r[i] != r[j])
            && (at > 0 ==> r[0] == chain[0])
  {
    var r := Without(chain, at);
    assert forall i :: 0 <= i < |r| ==> r[i] == chain[if i < at then i else i + 1];
    forall a | a in chain && a != chain[at] ensures a in r {
      var i :| 0 <= i < |chain| && chain[i] == a;
      assert r[if i < at then i else i - 1] == a;
    }
  }

  lemma WithoutHead(chain: seq<Address>, i: nat)
    requires i + 1 < |chain|
    ensures Without(chain, 0)[i] == chain[i + 1]
  {
  }

  /** Freeing the head. */
  lemma LinkedUnlinkHead(head: Address, memory: map<Address, Node>, chain: seq<Address>)
    requires Linked(head, memory, chain) && |chain| > 0
    ensures head in memory && Linked(memory[head].next, memory - {head}, Without(chain, 0))
  {
    hide Without;
    WithoutKeepsOthers(chain, 0);
    var rest := Without(chain, 0);
    forall i | 0 <= i < |rest| ensures rest[i] == chain[i + 1] && rest[i] in memory && rest[i] != NULL && rest[i] != head {
      WithoutHead(chain, i);
    }
  }

  /** The memory after bridging over the inner node at `at` and freeing it. */
  function Bridged(memory: map<Address, Node>, chain: seq<Address>, at: nat): (r: map<Address, Node>)
    requires 0 < at < |chain| && chain[at - 1] in memory && chain[at] in memory
    ensures chain[at - 1] != chain[at] ==> r.Keys == memory.Keys - {chain[at]}
  {
    memory[chain[at - 1] := memory[chain[at - 1]].(next := memory[chain[at]].next)] - {chain[at]}
  }

  lemma BridgedLinks(memory: map<Address, Node>, chain: seq<Address>, at: nat, i: nat)
    requires 0 < at < |chain| && forall k :: 0 <= k < |chain| ==> chain[k] in memory
    requires forall k, l :: 0 <= k < l < |chain| ==> chain[k] != chain[l]
    requires forall k, l :: 0 <= k && l == k + 1 < |chain| ==> memory[chain[k]].next == chain[l]
    requires memory[chain[|chain| - 1]].next == NULL
    requires i < |chain| - 1
    ensures var m, rest := Bridged(memory, chain, at), Without(chain, at);
            rest[i] in m && m[rest[i]].next == if i + 1 < |rest| then rest[i + 1] else NULL
  {
    var rest := Without(chain, at);
    if i < at - 1 {
      assert rest[i] == chain[i] && rest[i + 1] == chain[i + 1];
    } else if i == at - 1 {
      assert rest[i] == chain[at - 1];
      assert at + 1 < |chain| ==> rest[i + 1] == chain[at + 1];
    } else {
      assert rest[i] == chain[i + 1];
      assert i + 2 < |chain| ==> rest[i + 1] == chain[i + 2];
    }
  }

  /** The nodes left are exactly those of the chain without the freed one. */
  lemma BridgedMembers(head: Address, memory: map<Address, Node>, chain: seq<Address>, at: nat)
    requires Linked(head, memory, chain) && 0 < at < |chain|
    ensures chain[at - 1] in memory && chain[at] in memory && chain[at - 1] != chain[at] && chain[at - 1] != NULL
    ensures var m, rest := Bridged(memory, chain, at), Without(chain, at);
      && (forall i :: 0 <= i < |rest| ==> rest[i] in m && rest[i] != NULL)
      && (forall a :: a in m ==> a in rest)
      && (forall i, j :: 0 <= i < j < |rest| ==> rest[i] != rest[j])
      && |rest| > 0 && head == rest[0]
  {
    hide Without, Bridged;
    WithoutKeepsOthers(chain, at);
    var m, rest := Bridged(memory, chain, at), Without(chain, at);
    forall i | 0 <= i < |rest| ensures rest[i] in m && rest[i] != NULL {
      assert rest[i] in rest;
    }
  }

  /** Bridging over an inner node and freeing it. */
  lemma LinkedUnlinkInner(head: Address, memory: map<Address, Node>, chain: seq<Address>, at: nat)
    requires Linked(head, memory, chain) && 0 < at < |chain|
    ensures chain[at - 1] in memory && chain[at] in memory && chain[at - 1] != chain[at] && chain[at - 1] != NULL
    ensures Linked(head, Bridged(memory, chain, at), Without(chain, at))
  {
    hide Without, Bridged;
    BridgedMembers(head, memory, chain, at);
    var m, rest := Bridged(memory, chain, at), Without(chain, at);
    forall i, j | 0 <= i && j == i + 1 < |rest|
      ensures m[rest[i]].next == rest[j]
    {
      BridgedLinks(memory, chain, at, i);
    }
    BridgedLinks(memory, chain, at, |chain| - 2);
  }

  /** Registering a sound, non-empty node, whether it is new or replaces its own earlier entry. */
  lemma MirroredRegister(memory: map<Address, Node>, interest: map<int, (bv32, Address)>, a: Address, n: Node)
    requires Mirrored(memory, interest) && n.entry.Ok() && !Empty(n.entry.handlers)
    requires if a in memory then n.entry.fd in interest && interest[n.entry.fd].1 == a else n.entry.fd !in interest
    ensures Mirrored(memory[a := n], interest[n.entry.fd := (n.entry.events, a)])
    ensures forall f :: f in interest && f != n.entry.fd ==> interest[f].1 in memory && interest[f].1 != a
  {
  }

  lemma WatchesRegister(memory: map<Address, Node>, interest: map<int, (bv32, Address)>, a: Address, n: Node)
    requires Mirrored(memory, interest) && Mirrored(memory[a := n], interest[n.entry.fd := (n.entry.events, a)])
    requires forall f :: f in interest && f != n.entry.fd ==> interest[f].1 in memory && interest[f].1 != a
    ensures WatchesOf(memory[a := n], interest[n.entry.fd := (n.entry.events, a)])
         == WatchesOf(memory, interest)[n.entry.fd := n.entry.handlers]
  {
    hide Mirrored;
    var memory', interest' := memory[a := n], interest[n.entry.fd := (n.entry.events, a)];
    var w, w' := WatchesOf(memory, interest), WatchesOf(memory', interest');
    assert w'.Keys == w.Keys + {n.entry.fd};
    assert forall f :: f in w' ==> w'[f] == if f == n.entry.fd then n.entry.handlers else w[f];
  }

  /** Freeing and deregistering a node. */
  lemma MirroredFree(memory: map<Address, Node>, interest: map<int, (bv32, Address)>, fd: int, memory': map<Address, Node>)
    requires Mirrored(memory, interest) && fd in interest
    requires memory'.Keys == memory.Keys - {interest[fd].1}
    requires forall a :: a in memory' ==> memory'[a].entry == memory[a].entry
    ensures Mirrored(memory', interest - {fd})
    ensures WatchesOf(memory', interest - {fd}) == WatchesOf(memory, interest) - {fd}
  {
    assert Mirrored(memory', interest - {fd});
    var w, w' := WatchesOf(memory, interest), WatchesOf(memory', interest - {fd});
    assert w'.Keys == w.Keys - {fd};
    assert forall f :: f in w' ==> w'[f] == w[f];
  }

  class ELoop {
    var callbacksList: Address
    /** The allocated nodes, by address; a freed node is absent. */
    var memory: map<Address, Node>
    var nextAddress: Address
    /** The kernel's interest set: the mask and the data pointer of each registered descriptor. */
    ghost var interest: map<int, (bv32, Address)>
    ghost var chain: seq<Address>

    ghost predicate Valid()
      reads this
    {
      && Linked(callbacksList, memory, chain)
      && Mirrored(memory, interest)
      && nextAddress != NULL && forall a :: a in memory ==> a < nextAddress
    }

    /** What the list means. */
    ghost function Watches(): Watches
      requires Valid()
      reads this
    {
      WatchesOf(memory, interest)
    }

    constructor ()
      ensures Valid() && Watches() == map[] && memory == map[]
    {
      callbacksList, memory, nextAddress := NULL, map[], 1;
      interest, chain := map[], [];
    }

    /**
      epoll_ctl succeeds exactly when the descriptor's registration state fits the operation, so the state is
      a precondition: no caller that verifies issues ADD, MOD or DEL against the wrong state.
     */
    method EpollAdd(fd: int, events: bv32, ec: Address)
      requires fd !in interest
      modifies `interest
      ensures interest == old(interest)[fd := (events, ec)]
    {
      interest := interest[fd := (events, ec)];
    }

    method EpollMod(fd: int, events: bv32, ec: Address)
      requires fd in interest
      modifies `interest
      ensures interest == old(interest)[fd := (events, ec)]
    {
      interest := interest[fd := (events, ec)];
    }

    method EpollDel(fd: int)
      requires fd in interest
      modifies `interest
      ensures interest == old(interest) - {fd}
    {
      interest := interest - {fd};
    }

    /** Walks the list; `prev` is the node before the one found. */
    method FindCallbackByFd(fd: int) returns (ec: Address, prev: Address, ghost at: nat)
      requires Linked(callbacksList, memory, chain)
      ensures ec == NULL ==> forall a :: a in memory ==> memory[a].entry.fd != fd
      ensures ec != NULL ==> at < |chain| && chain[at] == ec && ec in memory && memory[ec].entry.fd == fd
      ensures ec != NULL ==> callbacksList == chain[0] && prev == if at == 0 then NULL else chain[at - 1]
    {
      ec, prev, at := callbacksList, NULL, 0;
      while ec != NULL
        invariant at <= |chain|
        invariant ec == if at < |chain| then chain[at] else NULL
        invariant prev == if at == 0 then NULL else chain[at - 1]
        invariant forall i :: 0 <= i < at ==> memory[chain[i]].entry.fd != fd
        decreases |chain| - at
      {
        if memory[ec].entry.fd == fd {
          return;
        }
        prev := ec;
        ec := memory[ec].next;
        at := at + 1;
      }
    }

    method AddFdWatch(fd: int, kind: Kind, callback: Callback, data: Address)
      requires Valid() && fd >= 0
      modifies this
      ensures Valid()
      ensures Watches() == WithWatch(old(Watches()), fd, kind, callback, data)
      ensures forall a :: a in old(memory) ==> a in memory && memory[a].entry.fd == old(memory)[a].entry.fd
    {
      hide Linked, Mirrored, WatchesOf, Mask;
      var ec, _, _ := FindCallbackByFd(fd);
      FoundIsRegistered(fd, ec);
      var node;
      if ec == NULL {
        ec := nextAddress;
        nextAddress := nextAddress + 1;
        node := Node(ZEROED.Install(fd, kind, callback, data), callbacksList);
        LinkedPrepend(callbacksList, memory, chain, ec, node.entry);
        callbacksList := ec;
        chain := [ec] + chain;
        EpollAdd(fd, node.entry.events, ec);
      } else {
        node := memory[ec].(entry := memory[ec].entry.Install(fd, kind, callback, data));
        LinkedSetEntry(callbacksList, memory, chain, ec, node.entry);
        EpollMod(fd, node.entry.events, ec);
      }
      MirroredRegister(memory, old(interest), ec, node);
      WatchesRegister(memory, old(interest), ec, node);
      memory := memory[ec := node];
    }

    /** What the search found is what the kernel and the map know of the descriptor. */
    lemma FoundIsRegistered(fd: int, ec: Address)
      requires Valid()
      requires ec == NULL ==> forall a :: a in memory ==> memory[a].entry.fd != fd
      requires ec != NULL ==> ec in memory && memory[ec].entry.fd == fd
      ensures ec == NULL <==> fd !in interest
      ensures ec == NULL <==> fd !in Watches()
      ensures ec != NULL ==> interest[fd].1 == ec && memory[ec].entry.Ok() && Watches()[fd] == memory[ec].entry.handlers
      ensures ZEROED.Ok()
    {
    }

    /** There is exactly one node for each watched descriptor, and none for any other. */
    lemma OneEntryPerFd()
      requires Valid()
      ensures forall a :: a in memory ==> memory[a].entry.fd in Watches()
      ensures forall fd :: fd in Watches() ==> exists a :: a in memory && memory[a].entry.fd == fd
      ensures forall a, b :: a in memory && b in memory && memory[a].entry.fd == memory[b].entry.fd ==> a == b
    {
      forall fd | fd in Watches() ensures exists a :: a in memory && memory[a].entry.fd == fd {
        assert interest[fd].1 in memory;
      }
    }

    /** A node in memory carries the handlers that the map gives its descriptor. */
    lemma EntryIsWatched(ec: Address)
      requires Valid() && ec in memory
      ensures memory[ec].entry.fd in Watches() && Watches()[memory[ec].entry.fd] == memory[ec].entry.handlers
    {
    }

    /** Answers false exactly when the descriptor has no entry, as the source's -1. */
    method RemoveFdWatch(fd: int, kind: Kind) returns (found: bool)
      requires Valid() && fd >= 0
      modifies this
      ensures Valid()
      ensures found <==> fd in old(Watches())
      ensures Watches() == WithoutWatch(old(Watches()), fd, kind)
      ensures forall a :: a in memory ==> a in old(memory) && memory[a].entry.fd == old(memory)[a].entry.fd
      ensures forall a :: a in old(memory) && old(memory)[a].entry.fd in Watches() ==> a in memory
    {
      hide Linked, Mirrored, WatchesOf, Mask;
      var ec, prev, at := FindCallbackByFd(fd);
      FoundIsRegistered(fd, ec);
      if ec == NULL {
        assert Watches() - {fd} == Watches();
        return false;
      }
      found := true;
      ghost var before := memory;
      var node := memory[ec].(entry := memory[ec].entry.Uninstall(kind));
      LinkedSetEntry(callbacksList, memory, chain, ec, node.entry);
      memory := memory[ec := node];
      if node.entry.events == 0 {
        Unlink(ec, prev, at);
        MirroredFree(before, interest, fd, memory);
        EpollDel(fd);
      } else {
        MirroredRegister(before, interest, ec, node);
        WatchesRegister(before, interest, ec, node);
        EpollMod(fd, node.entry.events, ec);
      }
    }

    /** Takes the node at position `at` out of the list and frees it. */
    method Unlink(ec: Address, prev: Address, ghost at: nat)
      requires Linked(callbacksList, memory, chain) && at < |chain| && chain[at] == ec
      requires prev == if at == 0 then NULL else chain[at - 1]
      modifies `callbacksList, `memory, `chain
      requires callbacksList == chain[0]
      ensures Linked(callbacksList, memory, chain) && memory.Keys == old(memory).Keys - {ec}
      ensures forall a :: a in memory ==> memory[a].entry == old(memory)[a].entry
    {
      hide Linked;
      if at == 0 {
        LinkedUnlinkHead(callbacksList, memory, chain);
      } else {
        LinkedUnlinkInner(callbacksList, memory, chain, at);
      }
      if prev == NULL {
        callbacksList := memory[ec].next;
      } else {
        memory := memory[prev := memory[prev].(next := memory[ec].next)];
      }
      memory := memory - {ec};
      chain := Without(chain, at);
    }
  }

  /** A sequence of calls on a loop that watches nothing leaves exactly the watches that AfterCalls folds up. */
  method Replay(eloop: ELoop, calls: seq<Call>)
    requires eloop.Valid() && eloop.Watches() == map[] && forall i :: 0 <= i < |calls| ==> calls[i].fd >= 0
    modifies eloop
    ensures eloop.Valid() && eloop.Watches() == AfterCalls(calls)
    ensures forall fd, kind :: LastWord(calls, fd, kind) == Watched(eloop.Watches(), fd, kind)
  {
    hide ELoop.Valid, ELoop.Watches, WithWatch, WithoutWatch;
    for i := 0 to |calls|
      invariant eloop.Valid() && eloop.Watches() == AfterCalls(calls[..i])
    {
      assert calls[..i + 1][..i] == calls[..i];
      match calls[i] {
        case Add(fd, kind, callback, data) => eloop.AddFdWatch(fd, kind, callback, data);
        case Remove(fd, kind) => var _ := eloop.RemoveFdWatch(fd, kind);
      }
    }
    assert calls[..|calls|] == calls;
    forall fd, kind ensures LastWord(calls, fd, kind) == Watched(eloop.Watches(), fd, kind) {
      LastCallDecides(calls, fd, kind);
    }
  }
}
