/**
  The request queue (src/httprequestqueue.c, src/httprequest.c): http_parser's callbacks fill in a request with
  ranges into a byte buffer that is later copied and shifted.
 */
module RequestQueue {
  import opened Prelude

  const MAX_REQUESTS := 100
  const MAX_HEADERS := 100
  const URL_FIELDS := 7

  datatype HeaderRange = HeaderRange(key: MemoryRange, value: MemoryRange)

  const NO_RANGE := MemoryRange(0, 0)

  // The fixed-size arrays of the C structures.

  type UrlRanges = s: seq<MemoryRange> | |s| == URL_FIELDS witness seq(URL_FIELDS, _ => NO_RANGE)

  type HeaderRanges = s: seq<HeaderRange> | |s| == MAX_HEADERS witness seq(MAX_HEADERS, _ => HeaderRange(NO_RANGE, NO_RANGE))

  /** `body` is the memory reserved for the body, of which bodyLength bytes are filled in. */
  datatype Request = Request(
    verb: nat,
    urlRange: MemoryRange,
    urlFields: UrlRanges,
    headers: HeaderRanges,
    currentHeader: nat,
    headersBuffer: string,
    body: seq<char>,
    bodyLength: nat,
    isLast: bool
  ) {
    function SetKeyRange(i: nat, r: MemoryRange): Request
      requires i < MAX_HEADERS
    {
      this.(headers := headers[i := headers[i].(key := r)])
    }

    function SetValueRange(i: nat, r: MemoryRange): Request
      requires i < MAX_HEADERS
    {
      this.(headers := headers[i := headers[i].(value := r)], currentHeader := currentHeader + 1)
    }

    function AppendBody(data: string): Request
      requires bodyLength + |data| <= |body|
    {
      this.(body := body[..bodyLength] + data + body[bodyLength + |data|..], bodyLength := bodyLength + |data|)
    }

    /** The counters are inside what they count. */
    ghost predicate Counted() {
      currentHeader <= MAX_HEADERS && bodyLength <= |body|
    }
  }

  /** A request fresh from memory_create. */
  function NewRequest(): (r: Request)
    ensures r.Counted() && r.currentHeader == 0 && r.bodyLength == |r.body| == 0
  {
    Request(0, NO_RANGE, seq(URL_FIELDS, _ => NO_RANGE), seq(MAX_HEADERS, _ => HeaderRange(NO_RANGE, NO_RANGE)), 0, "", [], 0, false)
  }

  /** Where a field of a URL is inside the URL, if it is set. */
  type UrlFields = f: seq<Option<MemoryRange>> | |f| == URL_FIELDS witness seq(URL_FIELDS, _ => None)

  /** The URL range, and those of its fields that are set, shifted to where the URL is. */
  function SetUrl(r: Request, at: nat, length: nat, fields: UrlFields): (r': Request)
    ensures forall i :: 0 <= i < URL_FIELDS && fields[i] == None ==> r'.urlFields[i] == r.urlFields[i]
  {
    r.(urlRange := MemoryRange(at, length),
       urlFields := seq(URL_FIELDS, i requires 0 <= i < URL_FIELDS =>
         if fields[i].Some? then MemoryRange(at + fields[i].value.offset, fields[i].value.length) else r.urlFields[i]))
  }

  // ----------------------------------------------------------------------------------------------
  // Header lookup
  // ----------------------------------------------------------------------------------------------

  /** What a C function sees of some bytes: those before the first terminator. */
  function CString(bytes: string): (s: string)
    ensures s <= bytes && NUL !in s && (|s| < |bytes| ==> bytes[|s|] == NUL)
  {
    if bytes == "" || bytes[0] == NUL then "" else [bytes[0]] + CString(bytes[1..])
  }

  /** Header i of a request has the name, ignoring case (section 3.2 of RFC 7230). */
  ghost predicate HasName(r: Request, i: nat, name: string)
    requires i < MAX_HEADERS && r.headers[i].key.offset + r.headers[i].key.length <= |r.headersBuffer|
  {
    var key := r.headers[i].key;
    SameIgnoringCase(name, CString(r.headersBuffer[key.offset..key.offset + key.length]))
  }

  /** All stored key ranges lie in the header copy. */
  ghost predicate KeysInside(r: Request) {
    r.Counted() && forall i :: 0 <= i < r.currentHeader ==> r.headers[i].key.offset + r.headers[i].key.length <= |r.headersBuffer|
  }

  /** The value range of the first header of that name, ignoring case, or None if there is none. */
  ghost predicate Looked(r: Request, name: string, range: Option<MemoryRange>)
    requires KeysInside(r)
  {
    match range
    case None => forall i :: 0 <= i < r.currentHeader ==> !HasName(r, i, name)
    case Some(found) =>
      exists i :: 0 <= i < r.currentHeader && HasName(r, i, name) && found == r.headers[i].value
                  && forall j :: 0 <= j < i ==> !HasName(r, j, name)
  }

  method GetHeaderValueRange(r: Request, name: string) returns (range: Option<MemoryRange>)
    requires KeysInside(r) && NUL !in name
    ensures Looked(r, name, range)
  {
    var i := 0;
    while i < r.currentHeader
      invariant i <= r.currentHeader && forall j :: 0 <= j < i ==> !HasName(r, j, name)
    {
      var key := r.headers[i].key;
      var current := r.headersBuffer[key.offset..key.offset + key.length];
      if SameIgnoringCase(name, CString(current)) {
        assert HasName(r, i, name);
        return Some(r.headers[i].value);
      }
      i := i + 1;
    }
    return None;
  }

  // ----------------------------------------------------------------------------------------------
  // The parser's events
  // ----------------------------------------------------------------------------------------------

  /**
    What happens to a queue: data arrive at the end of its buffer, and http_parser calls back, with positions from
    the start of the buffer.  A URL comes with what http_parser_parse_url makes of it, or None when that fails.
   */
  datatype Event =
    | Arrival(data: string)
    | MessageBegin
    | Url(at: nat, length: nat, fields: Option<UrlFields>)
    | HeaderField(at: nat, length: nat)
    | HeaderValue(at: nat, length: nat)
    | HeadersComplete(nread: nat, verb: nat, keepAlive: bool, contentLength: int)
    | Body(at: nat, length: nat)
    | MessageComplete

  /**
    What becomes of an event: it goes through, it makes the parser stop, or it faults.  Where it faults the source
    has no test: it would read or write out of range, follow a null pointer or fail an assertion.
   */
  datatype Verdict = Goes | Stops | Faults

  type Slots = s: seq<Option<Request>> | |s| == MAX_REQUESTS witness seq(MAX_REQUESTS, _ => None)

  /** `delivered` are the requests handed to the new-request callback, in order. */
  datatype Queue = Queue(
    buffer: string,
    requests: Slots,
    currentHeader: nat,
    incoming: nat,
    outgoing: nat,
    delivered: seq<Request>
  ) {
    predicate HasCurrent() {
      incoming < MAX_REQUESTS && requests[incoming].Some?
    }

    function Current(): Request
      requires HasCurrent()
    {
      requests[incoming].value
    }

    function WithCurrent(r: Request): Queue
      requires incoming < MAX_REQUESTS
    {
      this.(requests := requests[incoming := Some(r)])
    }

    /** The bytes that a callback reads are in the buffer; of none it reads none. */
    predicate Holds(at: nat, length: nat) {
      length > 0 ==> at + length <= |buffer|
    }

    /** The event finds its slot, and whatever it indexes or reads is in range. */
    predicate Ready(e: Event) {
      match e
      case Arrival(data) => data != ""
      case Url(at, length, _) => HasCurrent() && Holds(at, length)
      case MessageBegin => incoming < MAX_REQUESTS
      case HeaderValue(_, _) => HasCurrent() && currentHeader < MAX_HEADERS
      case HeadersComplete(nread, _, _, _) => HasCurrent() && 0 < nread <= |buffer|
      case Body(at, length) => HasCurrent() && 0 < length && Holds(at, length) && Current().bodyLength + length <= |Current().body|
      case MessageComplete => HasCurrent() && outgoing < MAX_REQUESTS && requests[outgoing].Some?
      case _ => HasCurrent()
    }

    /** The queue after an event, or None when the callback makes the parser stop. */
    function Step(e: Event): Option<Queue>
      requires Ready(e)
    {
      match e
      case Arrival(data) => Some(Grown(data))
      case MessageBegin => Some(WithCurrent(NewRequest()))
      case Url(at, length, fields) =>
        if fields == None then None else Some(WithCurrent(SetUrl(Current(), at, length, fields.value)))
      case HeaderField(at, length) =>
        if currentHeader >= MAX_HEADERS then None
        else Some(WithCurrent(Current().SetKeyRange(currentHeader, MemoryRange(at, length))))
      case HeaderValue(at, length) =>
        Some(WithCurrent(Current().SetValueRange(currentHeader, MemoryRange(at, length))).(currentHeader := currentHeader + 1))
      case HeadersComplete(nread, verb, keepAlive, contentLength) =>
        var r := Current().(verb := verb, isLast := !keepAlive, headersBuffer := buffer[..nread]);
        var r' := if contentLength > 0 then r.(body := seq(contentLength, _ => NUL)) else r;
        Some(WithCurrent(r').(buffer := buffer[nread..]))
      case Body(at, length) =>
        Some(WithCurrent(Current().AppendBody(buffer[at..at + length])))
      case MessageComplete =>
        var r := if incoming + 1 == MAX_REQUESTS then Current().(isLast := true) else Current();
        var q := WithCurrent(r).(incoming := incoming + 1, currentHeader := 0);
        Some(q.(outgoing := outgoing + 1, delivered := delivered + [q.requests[outgoing].value]))
    }

    function Grown(data: string): Queue {
      this.(buffer := buffer + data)
    }

    function Judge(e: Event): Verdict {
      if !Ready(e) then Faults else if Step(e) == None then Stops else Goes
    }

    function Next(e: Event): Queue {
      if Judge(e).Goes? then Step(e).value else this
    }
  }

  /** How far a sequence of events gets: the number that went through, the queue after those, and the last verdict. */
  datatype Course = Course(went: nat, queue: Queue, verdict: Verdict)

  function Run(q: Queue, events: seq<Event>): (c: Course)
    ensures c.went <= |events|
    decreases |events|
  {
    if events == [] then Course(0, q, Goes)
    else if !q.Judge(events[0]).Goes? then Course(0, q, q.Judge(events[0]))
    else
      var rest := Run(q.Next(events[0]), events[1..]);
      rest.(went := rest.went + 1)
  }

  /** A course that n events went through before. */
  ghost function Later(n: nat, c: Course): Course {
    c.(went := c.went + n)
  }

  lemma RunFirst(q: Queue, events: seq<Event>)
    requires events != []
    ensures Run(q, events) == if q.Judge(events[0]).Goes? then Later(1, Run(q.Next(events[0]), events[1..])) else Course(0, q, q.Judge(events[0]))
    ensures !q.Judge(events[0]).Goes? ==> q.Next(events[0]) == q
  {
  }

  lemma RunNothing(q: Queue)
    ensures Run(q, []) == Course(0, q, Goes)
  {
  }

  lemma {:induction false} RunSplits(q: Queue, a: seq<Event>, b: seq<Event>)
    requires Run(q, a).verdict.Goes?
    ensures Run(q, a).went == |a| && Run(q, a + b) == Later(|a|, Run(Run(q, a).queue, b))
    decreases |a|
  {
    hide Queue.Judge, Queue.Next;
    if a == [] {
      assert a + b == b;
    } else {
      assert (a + b)[1..] == a[1..] + b;
      RunSplits(q.Next(a[0]), a[1..], b);
    }
  }

  /** One append: the data, and the callbacks that the parser makes for them. */
  datatype Append = Append(data: string, callbacks: seq<Event>) {
    function Events(): seq<Event> {
      [Arrival(data)] + callbacks
    }
  }

  function AllEvents(appends: seq<Append>): seq<Event> {
    if appends == [] then [] else AllEvents(appends[..|appends| - 1]) + appends[|appends| - 1].Events()
  }

  lemma {:induction false} AllEventsSplit(a: seq<Append>, b: seq<Append>)
    ensures AllEvents(a + b) == AllEvents(a) + AllEvents(b)
    decreases |b|
  {
    hide Append.Events;
    if b == [] {
      assert a + b == a;
    } else {
      var ab := a + b;
      assert ab[..|ab| - 1] == a + b[..|b| - 1] && ab[|ab| - 1] == b[|b| - 1];
      AllEventsSplit(a, b[..|b| - 1]);
    }
  }

  // ----------------------------------------------------------------------------------------------
  // The parser's order of events
  // ----------------------------------------------------------------------------------------------

  /** Where http_parser is in a message: keys and values alternate, the body follows the headers, trailers the body. */
  datatype Phase = Between | InHead | AfterKey | InBody | AfterTrailerKey {
    predicate ExpectsValue() { AfterKey? || AfterTrailerKey? }
    predicate HeadIsOver() { InBody? || AfterTrailerKey? }
  }

  /** Data may arrive at any time; a callback belongs to its phases. */
  function NextPhase(p: Phase, e: Event): Option<Phase> {
    match (p, e)
    case (_, Arrival(_)) => Some(p)
    case (Between, MessageBegin) => Some(InHead)
    case (InHead, Url(_, _, _)) => Some(InHead)
    case (InHead, HeaderField(_, _)) => Some(AfterKey)
    case (AfterKey, HeaderValue(_, _)) => Some(InHead)
    case (InHead, HeadersComplete(_, _, _, _)) => Some(InBody)
    case (InBody, Body(_, _)) => Some(InBody)
    case (InBody, HeaderField(_, _)) => Some(AfterTrailerKey)
    case (AfterTrailerKey, HeaderValue(_, _)) => Some(InBody)
    case (InBody, MessageComplete) => Some(Between)
    case _ => None
  }

  predicate InOrder(p: Phase, events: seq<Event>)
    decreases |events|
  {
    events != [] ==> NextPhase(p, events[0]).Some? && InOrder(NextPhase(p, events[0]).value, events[1..])
  }

  function PhaseAfterAll(p: Phase, events: seq<Event>): Phase
    requires InOrder(p, events)
    decreases |events|
  {
    if events == [] then p else PhaseAfterAll(NextPhase(p, events[0]).value, events[1..])
  }

  /** The two header counters agree and stay within the table; requests are handed out as they complete. */
  ghost predicate Inv(q: Queue, p: Phase) {
    && q.incoming <= MAX_REQUESTS
    && q.outgoing == q.incoming == |q.delivered|
    && (forall i :: 0 <= i < q.incoming ==> q.requests[i] == Some(q.delivered[i]) && q.delivered[i].Counted())
    && (q.incoming == MAX_REQUESTS ==> q.delivered[MAX_REQUESTS - 1].isLast)
    && (p.Between? ==> q.currentHeader == 0)
    && (!p.Between? ==>
          && q.HasCurrent() && q.Current().Counted()
          && q.Current().currentHeader == q.currentHeader
          && (!p.HeadIsOver() ==> q.Current().bodyLength == |q.Current().body| == 0))
    && (p.ExpectsValue() ==> q.currentHeader < MAX_HEADERS)
  }

  /** A callback that comes in order and goes through leaves the counters equal and at most a hundred. */
  lemma StepKeepsInv(q: Queue, p: Phase, e: Event)
    requires Inv(q, p) && NextPhase(p, e).Some? && q.Judge(e).Goes?
    ensures Inv(q.Next(e), NextPhase(p, e).value)
  {
  }

  /** Exactly a completion hands out a request, and it is the current one. */
  lemma StepDelivers(q: Queue, p: Phase, e: Event)
    requires Inv(q, p) && NextPhase(p, e).Some? && q.Judge(e).Goes?
    ensures var d := q.Next(e).delivered;
      if e.MessageComplete? then
        q.HasCurrent() && d == q.delivered + [q.Current().(isLast := q.Current().isLast || q.incoming + 1 == MAX_REQUESTS)]
      else d == q.delivered
  {
  }

  function Completions(events: seq<Event>): nat {
    if events == [] then 0 else (if events[0].MessageComplete? then 1 else 0) + Completions(events[1..])
  }

  /**
    Over every sequence of events in order, however they are split across appends, as far as it gets: the counters
    agree, the requests come out in the order of their completion, each exactly once, and the hundredth is marked last.
   */
  lemma {:induction false} EventsKeepInv(q: Queue, p: Phase, events: seq<Event>)
    requires Inv(q, p) && InOrder(p, events)
    ensures var c := Run(q, events);
      && c.went <= |events| && InOrder(p, events[..c.went])
      && Inv(c.queue, PhaseAfterAll(p, events[..c.went]))
      && q.delivered <= c.queue.delivered
      && |c.queue.delivered| - |q.delivered| == Completions(events[..c.went])
    decreases |events|
  {
    hide Inv, Queue.Judge, Queue.Next;
    var c := Run(q, events);
    if c.went > 0 {
      StepKeepsInv(q, p, events[0]);
      StepDelivers(q, p, events[0]);
      EventsKeepInv(q.Next(events[0]), NextPhase(p, events[0]).value, events[1..]);
      assert events[..c.went][1..] == events[1..][..c.went - 1];
    } else {
      assert events[..0] == [];
    }
  }

  // ----------------------------------------------------------------------------------------------
  // Exactly when every event is in range
  // ----------------------------------------------------------------------------------------------

  function Begins(events: seq<Event>): nat {
    if events == [] then 0 else (if events[0].MessageBegin? then 1 else 0) + Begins(events[1..])
  }

  /** The bytes in the buffer after an event. */
  function BufferedAfter(n: int, e: Event): int {
    match e
    case Arrival(data) => n + |data|
    case HeadersComplete(nread, _, _, _) => n - nread
    case _ => n
  }

  function Buffered(n: int, events: seq<Event>): int
    decreases |events|
  {
    if events == [] then n else Buffered(BufferedAfter(n, events[0]), events[1..])
  }

  /** What is left of a body's announced length after an event: a length that is not positive announces nothing. */
  function RoomAfter(room: int, e: Event): int {
    match e
    case HeadersComplete(_, _, _, contentLength) => if contentLength > 0 then contentLength else 0
    case Body(_, length) => room - length
    case MessageComplete => 0
    case _ => room
  }

  function BodyRoom(room: int, events: seq<Event>): int
    decreases |events|
  {
    if events == [] then room else BodyRoom(RoomAfter(room, events[0]), events[1..])
  }

  /** What a queue still expects of a body that has begun. */
  ghost function Reserved(q: Queue, p: Phase): int
    requires Inv(q, p)
  {
    if p.Between? then 0 else |q.Current().body| - q.Current().bodyLength
  }

  /** The messages that have begun. */
  function Begun(q: Queue, p: Phase): nat {
    q.incoming + if p.Between? then 0 else 1
  }

  /** A callback refuses an event: a URL that does not parse, a key when the table of headers is full. */
  predicate Refused(headers: nat, e: Event) {
    (e.Url? && e.fields == None) || (e.HeaderField? && headers >= MAX_HEADERS)
  }

  function HeadersAfter(headers: nat, e: Event): nat {
    if e.HeaderValue? then headers + 1 else if e.MessageComplete? then 0 else headers
  }

  /** The number of events up to and with the first refused one. */
  function Heard(headers: nat, events: seq<Event>): (n: nat)
    ensures n <= |events|
    decreases |events|
  {
    if events == [] then 0
    else if Refused(headers, events[0]) then 1
    else 1 + Heard(HeadersAfter(headers, events[0]), events[1..])
  }

  /** What event i finds in the buffer, as far as one can tell from the events before it. */
  predicate InBuffer(buffered: int, events: seq<Event>, i: nat)
    requires i < |events|
  {
    match events[i]
    case Arrival(data) => data != ""
    case Url(at, length, _) => length > 0 ==> at + length <= Buffered(buffered, events[..i])
    case HeadersComplete(nread, _, _, _) => 0 < nread <= Buffered(buffered, events[..i])
    case Body(at, length) => 0 < length && at + length <= Buffered(buffered, events[..i])
    case _ => true
  }

  /** What event i needs, as far as one can tell from the events before it and how things stood before all of them. */
  predicate HasRoom(begun: nat, buffered: int, reserved: int, events: seq<Event>, i: nat)
    requires i < |events|
  {
    && InBuffer(buffered, events, i)
    && (events[i].MessageBegin? ==> begun + Begins(events[..i]) < MAX_REQUESTS)
    && (events[i].Body? ==> events[i].length <= BodyRoom(reserved, events[..i]))
  }

  /** Whether one event in order is in range, and otherwise whether it is refused. */
  lemma ReadyExactly(q: Queue, p: Phase, e: Event)
    requires Inv(q, p) && NextPhase(p, e).Some?
    ensures q.Ready(e) <==> HasRoom(Begun(q, p), |q.buffer|, Reserved(q, p), [e], 0)
    ensures q.Judge(e) == if !q.Ready(e) then Faults else if Refused(q.currentHeader, e) then Stops else Goes
  {
    assert [e][..0] == [];
  }

  /** What one event changes of what matters here. */
  lemma StepCounts(q: Queue, p: Phase, e: Event)
    requires Inv(q, p) && NextPhase(p, e).Some? && q.Judge(e).Goes?
    ensures var q', p' := q.Next(e), NextPhase(p, e).value;
      && Inv(q', p')
      && Begun(q', p') == Begun(q, p) + (if e.MessageBegin? then 1 else 0)
      && |q'.buffer| == BufferedAfter(|q.buffer|, e)
      && q'.currentHeader == HeadersAfter(q.currentHeader, e)
  {
    StepKeepsInv(q, p, e);
  }

  lemma StepReserves(q: Queue, p: Phase, e: Event)
    requires Inv(q, p) && NextPhase(p, e).Some? && q.Judge(e).Goes? && Inv(q.Next(e), NextPhase(p, e).value)
    ensures Reserved(q.Next(e), NextPhase(p, e).value) == RoomAfter(Reserved(q, p), e)
  {
  }

  lemma HasRoomShifts(begun: nat, buffered: int, reserved: int, events: seq<Event>, i: nat)
    requires 0 < i < |events|
    ensures var e := events[0];
      HasRoom(begun, buffered, reserved, events, i)
      <==> HasRoom(begun + (if e.MessageBegin? then 1 else 0), BufferedAfter(buffered, e), RoomAfter(reserved, e), events[1..], i - 1)
  {
    hide BufferedAfter, RoomAfter;
    assert events[..i][1..] == events[1..][..i - 1];
  }

  /**
    How a sequence of events in order ends: at the first event without room it faults, at the first refused event
    the parser stops, and otherwise it gets to its end.
   */
  lemma {:induction false} RunEnds(q: Queue, p: Phase, events: seq<Event>)
    requires Inv(q, p) && InOrder(p, events)
    ensures var c, n := Run(q, events), Heard(q.currentHeader, events);
      && (forall i :: 0 <= i < c.went ==> HasRoom(Begun(q, p), |q.buffer|, Reserved(q, p), events, i))
      && match c.verdict
         case Faults => c.went < n && !HasRoom(Begun(q, p), |q.buffer|, Reserved(q, p), events, c.went)
         case Stops => c.went + 1 == n && HasRoom(Begun(q, p), |q.buffer|, Reserved(q, p), events, c.went)
         case Goes => c.went == n == |events|
    decreases |events|
  {
    hide Inv, Queue.Judge, Queue.Next, HasRoom, Reserved, RoomAfter, Begun, BufferedAfter;
    if events != [] {
      var e := events[0];
      JudgedByRoom(q, p, events);
      if q.Judge(e).Goes? {
        var q', p' := q.Next(e), NextPhase(p, e).value;
        StepCounts(q, p, e);
        StepReserves(q, p, e);
        RunEnds(q', p', events[1..]);
        forall i | 0 < i < |events|
          ensures HasRoom(Begun(q, p), |q.buffer|, Reserved(q, p), events, i)
             <==> HasRoom(Begun(q', p'), |q'.buffer|, Reserved(q', p'), events[1..], i - 1)
        {
          HasRoomShifts(Begun(q, p), |q.buffer|, Reserved(q, p), events, i);
        }
      }
    }
  }

  /** The first event's verdict, from its room and whether it is refused. */
  lemma JudgedByRoom(q: Queue, p: Phase, events: seq<Event>)
    requires Inv(q, p) && InOrder(p, events) && events != []
    ensures var e, room := events[0], HasRoom(Begun(q, p), |q.buffer|, Reserved(q, p), events, 0);
      q.Judge(e) == if !room then Faults else if Refused(q.currentHeader, e) then Stops else Goes
  {
    hide Inv, Reserved;
    ReadyExactly(q, p, events[0]);
    assert events[..0] == [];
    assert [events[0]][..0] == [];
  }

  /** Whatever the events read is in the buffer when they read it. */
  ghost predicate PlacesFit(q: Queue, events: seq<Event>) {
    forall i :: 0 <= i < |events| ==> InBuffer(|q.buffer|, events, i)
  }

  /** No body event exceeds what is left of the announced positive length. */
  ghost predicate BodiesFit(q: Queue, p: Phase, events: seq<Event>)
    requires Inv(q, p)
  {
    forall i :: 0 <= i < |events| && events[i].Body? ==> events[i].length <= BodyRoom(Reserved(q, p), events[..i])
  }

  /** The begin of every message has a slot exactly if all of them have. */
  lemma {:induction false} BeginsFit(begun: nat, events: seq<Event>)
    requires begun <= MAX_REQUESTS
    ensures begun + Begins(events) <= MAX_REQUESTS <==>
      forall i :: 0 <= i < |events| && events[i].MessageBegin? ==> begun + Begins(events[..i]) < MAX_REQUESTS
    decreases |events|
  {
    if events != [] {
      var first := if events[0].MessageBegin? then 1 else 0;
      forall i | 0 < i < |events| ensures Begins(events[..i]) == first + Begins(events[1..][..i - 1]) && events[i] == events[1..][i - 1] {
        assert events[..i][1..] == events[1..][..i - 1];
      }
      assert events[..0] == [] && Begins([]) == 0;
      if begun + first <= MAX_REQUESTS {
        BeginsFit(begun + first, events[1..]);
        if begun + Begins(events) <= MAX_REQUESTS {
          forall i | 0 <= i < |events| && events[i].MessageBegin? ensures begun + Begins(events[..i]) < MAX_REQUESTS {
            if i > 0 {
              assert events[1..][i - 1].MessageBegin?;
            }
          }
        } else {
          var j :| 0 <= j < |events[1..]| && events[1..][j].MessageBegin? && !(begun + first + Begins(events[1..][..j]) < MAX_REQUESTS);
          assert events[j + 1].MessageBegin? && !(begun + Begins(events[..j + 1]) < MAX_REQUESTS);
        }
      } else {
        assert events[0].MessageBegin? && !(begun + Begins(events[..0]) < MAX_REQUESTS);
      }
    }
  }

  /** Slots for all messages that begin, everything read in the buffer, and all bodies within what was announced. */
  ghost predicate Fits(q: Queue, p: Phase, events: seq<Event>)
    requires Inv(q, p)
  {
    Begun(q, p) + Begins(events) <= MAX_REQUESTS && PlacesFit(q, events) && BodiesFit(q, p, events)
  }

  lemma FitsIsRoom(q: Queue, p: Phase, events: seq<Event>)
    requires Inv(q, p)
    ensures Fits(q, p, events) <==> forall i :: 0 <= i < |events| ==> HasRoom(Begun(q, p), |q.buffer|, Reserved(q, p), events, i)
  {
    hide Reserved, Begins, InBuffer, BodyRoom;
    BegunBound(q, p);
    hide Inv, Begun;
    BeginsFit(Begun(q, p), events);
    if forall i :: 0 <= i < |events| ==> HasRoom(Begun(q, p), |q.buffer|, Reserved(q, p), events, i) {
      RoomFits(q, p, events);
    }
  }

  lemma RoomFits(q: Queue, p: Phase, events: seq<Event>)
    requires Inv(q, p) && forall i :: 0 <= i < |events| ==> HasRoom(Begun(q, p), |q.buffer|, Reserved(q, p), events, i)
    ensures PlacesFit(q, events) && BodiesFit(q, p, events)
    ensures forall i :: 0 <= i < |events| && events[i].MessageBegin? ==> Begun(q, p) + Begins(events[..i]) < MAX_REQUESTS
  {
    hide Reserved, Begins, InBuffer, BodyRoom, Inv, Begun;
    forall i | 0 <= i < |events| ensures InBuffer(|q.buffer|, events, i) {
      assert HasRoom(Begun(q, p), |q.buffer|, Reserved(q, p), events, i);
    }
    forall i | 0 <= i < |events| && events[i].Body? ensures events[i].length <= BodyRoom(Reserved(q, p), events[..i]) {
      assert HasRoom(Begun(q, p), |q.buffer|, Reserved(q, p), events, i);
    }
    forall i | 0 <= i < |events| && events[i].MessageBegin? ensures Begun(q, p) + Begins(events[..i]) < MAX_REQUESTS {
      assert HasRoom(Begun(q, p), |q.buffer|, Reserved(q, p), events, i);
    }
  }

  lemma BegunBound(q: Queue, p: Phase)
    requires Inv(q, p)
    ensures Begun(q, p) <= MAX_REQUESTS
  {
  }

  /** The room that an event needs depends on the events before it only. */
  lemma RoomOfPrefix(begun: nat, buffered: int, reserved: int, events: seq<Event>, n: nat)
    requires n <= |events|
    ensures forall i :: 0 <= i < n ==>
      (HasRoom(begun, buffered, reserved, events[..n], i) <==> HasRoom(begun, buffered, reserved, events, i))
  {
    hide Begins, Buffered, BodyRoom;
    assert forall i :: 0 <= i < n ==> events[..n][..i] == events[..i] && events[..n][i] == events[i];
  }

  /**
    Every event of a sequence in order, over any number of appends, finds its slot, its index and its bytes in
    range if and only if there are slots for all messages that begin, whatever the callbacks read is in the buffer
    when they read it, and no body exceeds its announced positive length; only the events up to the first refused
    one matter.
   */
  lemma InRangeExactly(q: Queue, p: Phase, events: seq<Event>)
    requires Inv(q, p) && InOrder(p, events)
    ensures !Run(q, events).verdict.Faults? <==> Fits(q, p, events[..Heard(q.currentHeader, events)])
  {
    hide Inv, HasRoom, Fits, Run, Heard, Begun, Reserved;
    var n := Heard(q.currentHeader, events);
    RunEnds(q, p, events);
    FitsIsRoom(q, p, events[..n]);
    RoomOfPrefix(Begun(q, p), |q.buffer|, Reserved(q, p), events, n);
  }

  lemma InHeadFacts(q: Queue)
    requires Inv(q, InHead)
    ensures q.HasCurrent() && q.Current().bodyLength == |q.Current().body| == 0
  {
  }

  /**
    A body in the append that ends its head is read a head's length behind the place it was moved to: it goes
    through exactly if at least as many bytes as the head follow it, and then it is those behind it that are read.
   */
  lemma BodyBesideHead(q: Queue, head: nat, verb: nat, keepAlive: bool, contentLength: int, length: nat)
    requires Inv(q, InHead) && 0 < head && 0 < length <= contentLength && head + length <= |q.buffer|
    ensures var c := Run(q, [HeadersComplete(head, verb, keepAlive, contentLength), Body(head, length)]);
      && (c.verdict.Goes? <==> head <= |q.buffer| - (head + length))
      && (!c.verdict.Goes? ==> c.went == 1 && c.verdict.Faults?)
      && (c.verdict.Goes? ==> c.queue.HasCurrent() && c.queue.Current().bodyLength == length <= |c.queue.Current().body|
                              && c.queue.Current().body[..length] == q.buffer[2 * head..2 * head + length])
  {
    hide Inv, Run, Queue.Judge, Queue.Next;
    var e, e' := HeadersComplete(head, verb, keepAlive, contentLength), Body(head, length);
    InHeadFacts(q);
    HeadCompletes(q, head, verb, keepAlive, contentLength);
    var q1 := q.Next(e);
    RunFirst(q, [e, e']);
    assert [e, e'][1..] == [e'] && [e'][1..] == [];
    RunFirst(q1, [e']);
    RunNothing(q1.Next(e'));
    BodyIsRead(q1, head, length);
    if q1.Ready(e') {
      assert q.buffer[head..][head..head + length] == q.buffer[2 * head..2 * head + length];
    }
  }

  lemma HeadCompletes(q: Queue, nread: nat, verb: nat, keepAlive: bool, contentLength: int)
    requires q.HasCurrent() && q.Current().bodyLength == |q.Current().body| == 0 && 0 < nread <= |q.buffer|
    ensures var e := HeadersComplete(nread, verb, keepAlive, contentLength); var q1 := q.Next(e);
      && q.Judge(e).Goes? && q1.HasCurrent() && q1.buffer == q.buffer[nread..]
      && q1.Current().bodyLength == 0 && |q1.Current().body| == if contentLength > 0 then contentLength else 0
  {
  }

  lemma BodyIsRead(q: Queue, at: nat, length: nat)
    requires q.HasCurrent() && q.Current().bodyLength == 0
    ensures var e := Body(at, length);
      && q.Judge(e) == (if q.Ready(e) then Goes else Faults)
      && (q.Ready(e) ==> q.Next(e).HasCurrent() && q.Next(e).Current().bodyLength == length <= |q.Next(e).Current().body|
                         && q.Next(e).Current().body[..length] == q.buffer[at..at + length])
  {
    var e := Body(at, length);
    if q.Ready(e) {
      assert q.Next(e).Current().body[..length] == q.buffer[at..at + length];
    }
  }

  /** A body of which no positive length was announced has no memory reserved, and faults in an append of its own. */
  lemma UnannouncedBodyFaults(q: Queue, nread: nat, verb: nat, keepAlive: bool, contentLength: int, data: string)
    requires Inv(q, InHead) && 0 < nread <= |q.buffer| && contentLength <= 0 && data != ""
    ensures var c := Run(q, [HeadersComplete(nread, verb, keepAlive, contentLength), Arrival(data), Body(|q.buffer| - nread, |data|)]);
      c.went == 2 && c.verdict.Faults?
  {
    hide Inv, Run, Queue.Judge, Queue.Next;
    var e, e', e'' := HeadersComplete(nread, verb, keepAlive, contentLength), Arrival(data), Body(|q.buffer| - nread, |data|);
    InHeadFacts(q);
    HeadCompletes(q, nread, verb, keepAlive, contentLength);
    var q1 := q.Next(e);
    RunFirst(q, [e, e', e'']);
    assert [e, e', e''][1..] == [e', e''] && [e', e''][1..] == [e''];
    DataArrive(q1, data);
    RunFirst(q1, [e', e'']);
    RunFirst(q1.Grown(data), [e'']);
    BodyIsRead(q1.Grown(data), |q.buffer| - nread, |data|);
  }

  lemma DataArrive(q: Queue, data: string)
    requires data != ""
    ensures q.Judge(Arrival(data)).Goes? && q.Next(Arrival(data)) == q.Grown(data)
  {
  }

  lemma GrownKeepsInv(q: Queue, p: Phase, data: string)
    requires Inv(q, p)
    ensures Inv(q.Grown(data), p)
  {
  }
}
