/**
  The request queue as it is in memory (src/httprequestqueue.c): the parser's callbacks update the slots, the
  counters and the buffer in place, each exactly as the step of the same name in RequestQueue says.  A callback
  that the source would let run out of range answers that it faults, and does nothing.
 */
module QueueObject {
  import opened Prelude
  import opened RequestQueue
  import opened RequestTokens
  import Buffers

  class HTTPRequestQueue {
    var buffer: array<char>
    var bufferLength: nat
    const requests: array<Option<Request>>
    var currentHeader: nat
    var incoming: nat
    var outgoing: nat
    /** What the new-request callback has fetched. */
    ghost var delivered: seq<Request>

    ghost predicate Valid()
      reads this, buffer
    {
      bufferLength == buffer.Length && requests.Length == MAX_REQUESTS
    }

    ghost function View(): Queue
      requires Valid()
      reads this, buffer, requests
    {
      Queue(buffer[..], requests[..], currentHeader, incoming, outgoing, delivered)
    }

    constructor ()
      ensures Valid() && Inv(View(), Between) && fresh(buffer) && fresh(requests)
      ensures View().buffer == "" && View().incoming == 0
    {
      buffer, bufferLength := new char[0], 0;
      requests := new Option<Request>[MAX_REQUESTS](_ => None);
      currentHeader, incoming, outgoing, delivered := 0, 0, 0, [];
    }

    /** The callback has the verdict of its event, and has done what that event's step says. */
    twostate predicate Did(e: Event, v: Verdict)
      requires old(Valid())
      reads this, buffer, requests
    {
      Valid() && v == old(View()).Judge(e) && View() == old(View()).Next(e)
    }

    method OnMessageBegin() returns (v: Verdict)
      requires Valid()
      modifies requests
      ensures Did(MessageBegin, v)
      ensures v.Goes? ==> requests[..] == old(requests[..])[incoming := Some(NewRequest())]
    {
      if incoming >= requests.Length {
        return Faults;
      }
      requests[incoming] := Some(NewRequest());
      v := Goes;
    }

    /** Whether the incoming slot exists and holds a request. */
    method HasSlot() returns (has: bool)
      requires Valid()
      ensures has == View().HasCurrent()
    {
      has := incoming < requests.Length && requests[incoming].Some?;
    }

    method OnUrl(at: nat, length: nat, fields: Option<UrlFields>) returns (v: Verdict)
      requires Valid()
      modifies requests
      ensures Did(Url(at, length, fields), v)
    {
      var has := HasSlot();
      if !has || (length > 0 && at + length > bufferLength) {
        return Faults;
      }
      if fields == None {
        return Stops;
      }
      var request := requests[incoming].value;
      ghost var before := request;
      request := request.(urlRange := MemoryRange(at, length));
      var i := 0;
      while i < URL_FIELDS
        invariant i <= URL_FIELDS
        invariant request == before.(urlRange := MemoryRange(at, length), urlFields := request.urlFields)
        invariant forall k :: 0 <= k < i ==> request.urlFields[k] == SetUrl(before, at, length, fields.value).urlFields[k]
        invariant forall k :: i <= k < URL_FIELDS ==> request.urlFields[k] == before.urlFields[k]
      {
        var field := fields.value[i];
        if field.Some? {
          request := request.(urlFields := request.urlFields[i := MemoryRange(at + field.value.offset, field.value.length)]);
        }
        i := i + 1;
      }
      assert request.urlFields == SetUrl(before, at, length, fields.value).urlFields;
      requests[incoming] := Some(request);
      v := Goes;
    }

    method OnHeaderField(at: nat, length: nat) returns (v: Verdict)
      requires Valid()
      modifies requests
      ensures Did(HeaderField(at, length), v)
    {
      var has := HasSlot();
      if !has {
        return Faults;
      }
      if currentHeader >= MAX_HEADERS {
        return Stops;
      }
      requests[incoming] := Some(requests[incoming].value.SetKeyRange(currentHeader, MemoryRange(at, length)));
      v := Goes;
    }

    method OnHeaderValue(at: nat, length: nat) returns (v: Verdict)
      requires Valid()
      modifies requests, `currentHeader
      ensures Did(HeaderValue(at, length), v)
    {
      var has := HasSlot();
      if !has || currentHeader >= MAX_HEADERS {
        return Faults;
      }
      requests[incoming] := Some(requests[incoming].value.SetValueRange(currentHeader, MemoryRange(at, length)));
      currentHeader := currentHeader + 1;
      v := Goes;
    }

    /** Copies the header section into the request and moves the rest of the buffer to its front. */
    method OnHeadersComplete(nread: nat, verb: nat, keepAlive: bool, contentLength: int) returns (v: Verdict)
      requires Valid()
      modifies this`buffer, this`bufferLength, buffer, requests
      ensures Did(HeadersComplete(nread, verb, keepAlive, contentLength), v) && (buffer == old(buffer) || fresh(buffer))
    {
      var has := HasSlot();
      if !has || nread == 0 || nread > bufferLength {
        return Faults;
      }
      ghost var before := View();
      var request := requests[incoming].value.(verb := verb, isLast := !keepAlive, headersBuffer := buffer[..nread]);
      bufferLength := bufferLength - nread;
      if bufferLength == 0 {
        buffer := new char[0];
      } else {
        Buffers.MoveDown(buffer, nread, bufferLength);
        buffer := Buffers.Resize(buffer, bufferLength);
      }
      assert buffer[..] == before.buffer[nread..];
      if contentLength > 0 {
        request := request.(body := seq(contentLength, _ => NUL));
      }
      requests[incoming] := Some(request);
      v := Goes;
    }

    method OnBody(at: nat, length: nat) returns (v: Verdict)
      requires Valid()
      modifies requests
      ensures Did(Body(at, length), v)
    {
      var has := HasSlot();
      if !has || length == 0 || at + length > bufferLength {
        return Faults;
      }
      var request := requests[incoming].value;
      if request.bodyLength + length > |request.body| {
        return Faults;
      }
      requests[incoming] := Some(request.AppendBody(buffer[at..at + length]));
      v := Goes;
    }

    method OnMessageComplete() returns (v: Verdict)
      requires Valid()
      modifies requests, `incoming, `currentHeader, `outgoing, `delivered
      ensures Did(MessageComplete, v)
    {
      var has := HasSlot();
      if !has || outgoing >= requests.Length || requests[outgoing] == None {
        return Faults;
      }
      ghost var q := View();
      incoming := incoming + 1;
      currentHeader := 0;
      if incoming == MAX_REQUESTS {
        requests[incoming - 1] := Some(requests[incoming - 1].value.(isLast := true));
      }
      assert View().requests == q.Step(MessageComplete).value.requests;
      var request := GetNextRequest();
      delivered := delivered + [request.value.value];
      v := Goes;
    }

    /** What is in the outgoing slot, or None when there is no such slot. */
    method GetNextRequest() returns (request: Option<Option<Request>>)
      requires Valid()
      modifies `outgoing
      ensures Valid()
      ensures if old(outgoing) < MAX_REQUESTS
              then View() == old(View()).(outgoing := old(outgoing) + 1) && request == Some(requests[old(outgoing)])
              else View() == old(View()) && request == None
    {
      if outgoing >= requests.Length {
        return None;
      }
      request := Some(requests[outgoing]);
      outgoing := outgoing + 1;
    }

    /** The data, or the callback, of an event. */
    method Handle(e: Event) returns (v: Verdict)
      requires Valid()
      modifies this, buffer, requests
      ensures Did(e, v) && (buffer == old(buffer) || fresh(buffer))
    {
      match e {
        case Arrival(data) => v := Extend(data);
        case MessageBegin => v := OnMessageBegin();
        case Url(at, length, fields) => v := OnUrl(at, length, fields);
        case HeaderField(at, length) => v := OnHeaderField(at, length);
        case HeaderValue(at, length) => v := OnHeaderValue(at, length);
        case HeadersComplete(nread, verb, keepAlive, contentLength) =>
          v := OnHeadersComplete(nread, verb, keepAlive, contentLength);
        case Body(at, length) => v := OnBody(at, length);
        case MessageComplete => v := OnMessageComplete();
      }
    }

    /** memory_resize and memcpy; the source asserts that there are data. */
    method Extend(data: string) returns (v: Verdict)
      requires Valid()
      modifies `buffer, `bufferLength
      ensures Did(Arrival(data), v) && (buffer == old(buffer) || fresh(buffer))
    {
      if |data| == 0 {
        return Faults;
      }
      ghost var before := View();
      buffer := Buffers.Resize(buffer, bufferLength + |data|);
      forall i | 0 <= i < |data| {
        buffer[bufferLength + i] := data[i];
      }
      bufferLength := bufferLength + |data|;
      assert View().buffer == before.buffer + data;
      v := Goes;
    }

    /**
      Appends the data and lets the parser call back, until a callback does not go through.  `callbacks` are those
      that it makes for the data, and `accepts` is what the parser itself says of the data after them.
     */
    method AppendData(data: string, callbacks: seq<Event>, accepts: bool) returns (v: Verdict)
      requires Valid()
      modifies this, buffer, requests
      ensures Valid() && (buffer == old(buffer) || fresh(buffer))
      ensures var c := Run(old(View()), Append(data, callbacks).Events());
        View() == c.queue && v == if c.verdict.Goes? && !accepts then Stops else c.verdict
    {
      hide Run, Queue.Judge, Queue.Next;
      var events := [Arrival(data)] + callbacks;
      ghost var q := View();
      var i := 0;
      while i < |events|
        invariant i <= |events| && Valid()
        invariant Run(q, events) == Later(i, Run(View(), events[i..]))
        invariant buffer == old(buffer) || fresh(buffer)
      {
        RunFirst(View(), events[i..]);
        assert events[i..][1..] == events[i + 1..];
        v := Handle(events[i]);
        if !v.Goes? {
          return;
        }
        i := i + 1;
      }
      RunNothing(View());
      v := if accepts then Goes else Stops;
    }
  }

  /** Append after append arrives on a connection, up to the first that does not go through. */
  method Receive(queue: HTTPRequestQueue, appends: seq<Append>) returns (v: Verdict)
    requires queue.Valid()
    modifies queue, queue.buffer, queue.requests
    ensures queue.Valid()
    ensures queue.View() == Run(old(queue.View()), AllEvents(appends)).queue && v == Run(old(queue.View()), AllEvents(appends)).verdict
  {
    hide Run, AllEvents;
    ghost var q := queue.View();
    NoAppends(q);
    v := Goes;
    var k := 0;
    assert appends[..0] == [];
    while k < |appends|
      invariant queue.Valid() && k <= |appends| && (queue.buffer == old(queue.buffer) || fresh(queue.buffer))
      invariant v.Goes? && Run(q, AllEvents(appends[..k])).verdict.Goes? && Run(q, AllEvents(appends[..k])).queue == queue.View()
    {
      OneMore(q, appends, k);
      v := queue.AppendData(appends[k].data, appends[k].callbacks, true);
      if !v.Goes? {
        return;
      }
      k := k + 1;
    }
    assert appends[..k] == appends;
  }

  lemma NoAppends(q: Queue)
    ensures Run(q, AllEvents([])) == Course(0, q, Goes)
  {
  }

  /** One append more, and if it does not go through nothing behind it matters. */
  lemma OneMore(q: Queue, appends: seq<Append>, k: nat)
    requires k < |appends| && Run(q, AllEvents(appends[..k])).verdict.Goes?
    ensures var c := Run(Run(q, AllEvents(appends[..k])).queue, appends[k].Events());
      && Run(q, AllEvents(appends[..k + 1])).queue == c.queue && Run(q, AllEvents(appends[..k + 1])).verdict == c.verdict
      && (!c.verdict.Goes? ==> Run(q, AllEvents(appends)) == Run(q, AllEvents(appends[..k + 1])))
  {
    hide Run, AllEvents, Append.Events;
    var before, next := AllEvents(appends[..k]), appends[k].Events();
    assert appends[..k + 1] == appends[..k] + [appends[k]] && appends == appends[..k + 1] + appends[k + 1..];
    AllEventsSplit(appends[..k], [appends[k]]);
    OneAppend(appends[k]);
    AllEventsSplit(appends[..k + 1], appends[k + 1..]);
    RunSplits(q, before, next);
    if !Run(q, AllEvents(appends[..k + 1])).verdict.Goes? {
      FaultStays(q, AllEvents(appends[..k + 1]), AllEvents(appends[k + 1..]));
    }
  }

  lemma OneAppend(a: Append)
    ensures AllEvents([a]) == a.Events()
  {
    assert [a][..0] == [] && AllEvents([]) == [];
  }

  /** Whole requests arrive one after the other: they are handed out as ConnectionReadsBack says. */
  method Serve(queue: HTTPRequestQueue, ws: seq<Whole>) returns (v: Verdict)
    requires queue.Valid() && Inv(queue.View(), Between) && forall i :: 0 <= i < |ws| ==> ws[i].Good()
    modifies queue, queue.buffer, queue.requests
    ensures queue.Valid()
    ensures v == if old(queue.incoming) + |ws| <= MAX_REQUESTS then Goes else Faults
    ensures HandedOut(old(queue.View()), queue.View(), old(queue.View().buffer), ws, Served(old(queue.incoming), |ws|))
  {
    hide Inv, Whole.Good, Run, AllEvents, Connection, HandedOut;
    IncomingBound(queue.View());
    ConnectionReadsBack(queue.View(), ws);
    v := Receive(queue, Connection(queue.bufferLength, ws));
  }

  lemma IncomingBound(q: Queue)
    requires Inv(q, Between)
    ensures q.incoming <= MAX_REQUESTS
  {
  }
}
