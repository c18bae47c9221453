/**
  Requests that arrive in pieces: what http_parser reports of a request's text, append after append, ends up as
  ranges that cut the original tokens out of the buffer, and out of the request's own copy of its header section
  as far as that copy goes.
 */
module RequestTokens {
  import opened Prelude
  import opened RequestQueue

  /** A token of a text and where it starts. */
  datatype Token = Token(at: nat, text: string)

  /** The range is the token's, lies inside the text and cuts the token out of it. */
  ghost predicate Extracts(text: string, r: MemoryRange, token: Token) {
    && r == MemoryRange(token.at, |token.text|)
    && token.at + |token.text| <= |text| && text[token.at..token.at + |token.text|] == token.text
  }

  /** The queue and the parser's place after events that come in order and all go through. */
  ghost function After(q: Queue, p: Phase, events: seq<Event>): Option<(Queue, Phase)>
    requires Inv(q, p)
    decreases |events|
  {
    if events == [] then Some((q, p))
    else if NextPhase(p, events[0]) == None || !q.Judge(events[0]).Goes? then None
    else
      StepKeepsInv(q, p, events[0]);
      After(q.Next(events[0]), NextPhase(p, events[0]).value, events[1..])
  }

  lemma {:induction false} AfterKeepsInv(q: Queue, p: Phase, events: seq<Event>)
    requires Inv(q, p)
    ensures After(q, p, events).Some? ==> Inv(After(q, p, events).value.0, After(q, p, events).value.1)
    decreases |events|
  {
    hide Inv, Queue.Judge, Queue.Next;
    if events != [] && NextPhase(p, events[0]).Some? && q.Judge(events[0]).Goes? {
      StepKeepsInv(q, p, events[0]);
      AfterKeepsInv(q.Next(events[0]), NextPhase(p, events[0]).value, events[1..]);
    }
  }

  /** That is what running them does. */
  lemma {:induction false} AfterIsRun(q: Queue, p: Phase, events: seq<Event>)
    requires Inv(q, p)
    ensures After(q, p, events).Some? ==> InOrder(p, events) && Run(q, events) == Course(|events|, After(q, p, events).value.0, Goes)
    decreases |events|
  {
    hide Inv, Queue.Judge, Queue.Next;
    if events != [] && NextPhase(p, events[0]).Some? && q.Judge(events[0]).Goes? {
      StepKeepsInv(q, p, events[0]);
      AfterIsRun(q.Next(events[0]), NextPhase(p, events[0]).value, events[1..]);
    }
  }

  lemma {:induction false} AfterSplits(q: Queue, p: Phase, a: seq<Event>, b: seq<Event>)
    requires Inv(q, p) && After(q, p, a).Some?
    ensures Inv(After(q, p, a).value.0, After(q, p, a).value.1)
    ensures After(q, p, a + b) == After(After(q, p, a).value.0, After(q, p, a).value.1, b)
    decreases |a|
  {
    hide Inv, Queue.Judge, Queue.Next;
    AfterKeepsInv(q, p, a);
    if a == [] {
      assert a + b == b;
    } else {
      StepKeepsInv(q, p, a[0]);
      assert (a + b)[1..] == a[1..] + b;
      AfterSplits(q.Next(a[0]), NextPhase(p, a[0]).value, a[1..], b);
    }
  }

  lemma AfterOne(q: Queue, p: Phase, e: Event)
    requires Inv(q, p) && NextPhase(p, e).Some? && q.Judge(e).Goes?
    ensures After(q, p, [e]) == Some((q.Next(e), NextPhase(p, e).value))
  {
    assert [e][1..] == [];
  }

  /** Data may always arrive. */
  lemma AfterArrival(q: Queue, p: Phase, data: string)
    requires Inv(q, p) && data != ""
    ensures Inv(q.Grown(data), p) && After(q, p, [Arrival(data)]) == Some((q.Grown(data), p))
  {
    hide Inv;
    DataArrive(q, data);
    StepKeepsInv(q, p, Arrival(data));
    AfterOne(q, p, Arrival(data));
  }

  // ----------------------------------------------------------------------------------------------
  // The tokens of a header section
  // ----------------------------------------------------------------------------------------------

  /** A piece of a request's header section: a token that the parser reports, or text that it does not. */
  datatype Segment = Plain(text: string) | UrlToken(text: string, fields: UrlFields) | KeyToken(text: string) | ValueToken(text: string)

  function Text(segments: seq<Segment>): string {
    if segments == [] then "" else Text(segments[..|segments| - 1]) + segments[|segments| - 1].text
  }

  /** The event for a segment at a position, if it is a token. */
  function EventAt(s: Segment, at: nat): seq<Event> {
    match s
    case Plain(_) => []
    case UrlToken(text, fields) => [Url(at, |text|, Some(fields))]
    case KeyToken(text) => [HeaderField(at, |text|)]
    case ValueToken(text) => [HeaderValue(at, |text|)]
  }

  /** The events for segments that start at a position, in order. */
  function EventsAt(segments: seq<Segment>, at: nat): seq<Event> {
    if segments == [] then [] else
      EventsAt(segments[..|segments| - 1], at)
      + EventAt(segments[|segments| - 1], at + |Text(segments[..|segments| - 1])|)
  }

  function KeyCount(segments: seq<Segment>): nat {
    if segments == [] then 0 else
      KeyCount(segments[..|segments| - 1]) + if segments[|segments| - 1].KeyToken? then 1 else 0
  }

  function ValueCount(segments: seq<Segment>): nat {
    if segments == [] then 0 else
      ValueCount(segments[..|segments| - 1]) + if segments[|segments| - 1].ValueToken? then 1 else 0
  }

  /** The keys of segments that start at a position. */
  function Keys(segments: seq<Segment>, at: nat): (r: seq<Token>)
    ensures |r| == KeyCount(segments)
  {
    if segments == [] then [] else
      var before, last := segments[..|segments| - 1], segments[|segments| - 1];
      if last.KeyToken? then Keys(before, at) + [Token(at + |Text(before)|, last.text)] else Keys(before, at)
  }

  function Values(segments: seq<Segment>, at: nat): (r: seq<Token>)
    ensures |r| == ValueCount(segments)
  {
    if segments == [] then [] else
      var before, last := segments[..|segments| - 1], segments[|segments| - 1];
      if last.ValueToken? then Values(before, at) + [Token(at + |Text(before)|, last.text)] else Values(before, at)
  }

  datatype PlacedUrl = PlacedUrl(token: Token, fields: UrlFields)

  /** The last URL token, if any. */
  function LastUrl(segments: seq<Segment>, at: nat): Option<PlacedUrl> {
    if segments == [] then None else
      var before, last := segments[..|segments| - 1], segments[|segments| - 1];
      if last.UrlToken? then Some(PlacedUrl(Token(at + |Text(before)|, last.text), last.fields)) else LastUrl(before, at)
  }

  /** The fields of a URL lie inside it. */
  ghost predicate FieldsInside(text: string, fields: UrlFields) {
    forall i :: 0 <= i < URL_FIELDS && fields[i].Some? ==> fields[i].value.offset + fields[i].value.length <= |text|
  }

  /** Keys and values alternate, keys first, and there are at most a hundred; a URL's fields lie inside it. */
  ghost predicate WellFormed(segments: seq<Segment>) {
    segments != [] ==>
      var before, last := segments[..|segments| - 1], segments[|segments| - 1];
      && WellFormed(before)
      && match last
         case Plain(_) => true
         case UrlToken(text, fields) => KeyCount(before) == ValueCount(before) && FieldsInside(text, fields)
         case KeyToken(_) => KeyCount(before) == ValueCount(before) < MAX_HEADERS
         case ValueToken(_) => KeyCount(before) == ValueCount(before) + 1
  }

  /** The request's ranges are those of the segments' tokens and cut them out of the text, the segments starting at `at`. */
  ghost predicate Recorded(r: Request, segments: seq<Segment>, at: nat, text: string) {
    Holds(r, Keys(segments, at), Values(segments, at), LastUrl(segments, at), text)
  }

  ghost predicate Holds(r: Request, keys: seq<Token>, values: seq<Token>, url: Option<PlacedUrl>, text: string) {
    && r.Counted() && r.currentHeader == |values| && |keys| <= MAX_HEADERS && |values| <= MAX_HEADERS
    && (forall i :: 0 <= i < |keys| ==> Extracts(text, r.headers[i].key, keys[i]))
    && (forall i :: 0 <= i < |values| ==> Extracts(text, r.headers[i].value, values[i]))
    && (url.Some? ==> UrlRecorded(r, url.value, text))
  }

  /** Field i of a URL. */
  function FieldToken(url: PlacedUrl, f: MemoryRange): Token
    requires f.offset + f.length <= |url.token.text|
  {
    Token(url.token.at + f.offset, url.token.text[f.offset..f.offset + f.length])
  }

  ghost predicate UrlRecorded(r: Request, url: PlacedUrl, text: string) {
    && Extracts(text, r.urlRange, url.token)
    && FieldsInside(url.token.text, url.fields)
    && forall i :: 0 <= i < URL_FIELDS && url.fields[i].Some? ==> Extracts(text, r.urlFields[i], FieldToken(url, url.fields[i].value))
  }

  /** The parser's place after segments. */
  function PhaseAfter(segments: seq<Segment>): Phase {
    if KeyCount(segments) > ValueCount(segments) then AfterKey else InHead
  }

  lemma {:induction false} CountsAlternate(segments: seq<Segment>)
    requires WellFormed(segments)
    ensures ValueCount(segments) <= KeyCount(segments) <= ValueCount(segments) + 1 && KeyCount(segments) <= MAX_HEADERS
  {
    if segments != [] {
      CountsAlternate(segments[..|segments| - 1]);
    }
  }

  lemma TokenExtracts(text: string, before: string, token: string)
    requires before + token <= text
    ensures Extracts(text, MemoryRange(|before|, |token|), Token(|before|, token))
  {
    assert text[..|before + token|] == before + token;
    assert text[|before|..|before| + |token|] == (before + token)[|before|..];
  }

  /** A key, a value or a URL stored at its position is recorded, and what was recorded before stays so. */
  lemma TokenRecorded(r: Request, segments: seq<Segment>, left: string, text: string)
    requires segments != [] && WellFormed(segments) && left + Text(segments) <= text
    requires Recorded(r, segments[..|segments| - 1], |left|, text)
    ensures var before, last := segments[..|segments| - 1], segments[|segments| - 1];
      var range := MemoryRange(|left| + |Text(before)|, |last.text|);
      match last
      case Plain(_) => Recorded(r, segments, |left|, text)
      case KeyToken(_) => r.currentHeader < MAX_HEADERS && Recorded(r.SetKeyRange(r.currentHeader, range), segments, |left|, text)
      case ValueToken(_) => r.currentHeader < MAX_HEADERS && Recorded(r.SetValueRange(r.currentHeader, range), segments, |left|, text)
      case UrlToken(_, fields) => Recorded(SetUrl(r, range.offset, |last.text|, fields), segments, |left|, text)
  {
    hide Extracts, UrlRecorded, SetUrl, Holds, Request.SetKeyRange, Request.SetValueRange;
    var before, last := segments[..|segments| - 1], segments[|segments| - 1];
    CountsAlternate(segments);
    assert left + Text(segments) == (left + Text(before)) + last.text;
    TokenExtracts(text, left + Text(before), last.text);
    var at := |left| + |Text(before)|;
    var range, token := MemoryRange(at, |last.text|), Token(at, last.text);
    var keys, values, url := Keys(before, |left|), Values(before, |left|), LastUrl(before, |left|);
    match last {
      case Plain(_) =>
      case KeyToken(_) => KeyHeld(r, keys, values, url, text, range, token);
      case ValueToken(_) => ValueHeld(r, keys, values, url, text, range, token);
      case UrlToken(_, fields) => UrlHeld(r, keys, values, url, text, PlacedUrl(token, fields));
    }
  }

  lemma KeyHeld(r: Request, keys: seq<Token>, values: seq<Token>, url: Option<PlacedUrl>, text: string, range: MemoryRange, token: Token)
    requires Holds(r, keys, values, url, text) && Extracts(text, range, token) && |keys| == |values| < MAX_HEADERS
    ensures r.currentHeader < MAX_HEADERS && Holds(r.SetKeyRange(r.currentHeader, range), keys + [token], values, url, text)
  {
    hide Extracts, UrlRecorded;
    if url.Some? {
      HeadersKeepUrl(r, url.value, text, range);
    }
  }

  lemma ValueHeld(r: Request, keys: seq<Token>, values: seq<Token>, url: Option<PlacedUrl>, text: string, range: MemoryRange, token: Token)
    requires Holds(r, keys, values, url, text) && Extracts(text, range, token) && |keys| == |values| + 1 <= MAX_HEADERS
    ensures r.currentHeader < MAX_HEADERS && Holds(r.SetValueRange(r.currentHeader, range), keys, values + [token], url, text)
  {
    hide Extracts, UrlRecorded;
    if url.Some? {
      HeadersKeepUrl(r, url.value, text, range);
    }
  }

  lemma UrlHeld(r: Request, keys: seq<Token>, values: seq<Token>, url: Option<PlacedUrl>, text: string, next: PlacedUrl)
    requires Holds(r, keys, values, url, text)
    requires Extracts(text, MemoryRange(next.token.at, |next.token.text|), next.token) && FieldsInside(next.token.text, next.fields)
    ensures Holds(SetUrl(r, next.token.at, |next.token.text|, next.fields), keys, values, Some(next), text)
  {
    hide Extracts, UrlRecorded, SetUrl;
    UrlRecords(r, next, text);
    UrlKeepsRest(r, next.token.at, |next.token.text|, next.fields);
  }

  lemma UrlKeepsRest(r: Request, at: nat, length: nat, fields: UrlFields)
    requires r.Counted()
    ensures var r' := SetUrl(r, at, length, fields);
      r'.Counted() && r'.headers == r.headers && r'.currentHeader == r.currentHeader
  {
  }

  lemma HeadersKeepUrl(r: Request, url: PlacedUrl, text: string, range: MemoryRange)
    requires r.Counted() && UrlRecorded(r, url, text)
    ensures r.currentHeader < MAX_HEADERS ==>
      UrlRecorded(r.SetKeyRange(r.currentHeader, range), url, text) && UrlRecorded(r.SetValueRange(r.currentHeader, range), url, text)
  {
  }

  lemma UrlRecords(r: Request, url: PlacedUrl, text: string)
    requires Extracts(text, MemoryRange(url.token.at, |url.token.text|), url.token) && FieldsInside(url.token.text, url.fields)
    ensures UrlRecorded(SetUrl(r, url.token.at, |url.token.text|, url.fields), url, text)
  {
    hide Extracts;
    var r' := SetUrl(r, url.token.at, |url.token.text|, url.fields);
    forall i | 0 <= i < URL_FIELDS && url.fields[i].Some?
      ensures Extracts(text, r'.urlFields[i], FieldToken(url, url.fields[i].value))
    {
      FieldExtracts(text, url, url.fields[i].value);
    }
  }

  lemma FieldExtracts(text: string, url: PlacedUrl, f: MemoryRange)
    requires Extracts(text, MemoryRange(url.token.at, |url.token.text|), url.token) && f.offset + f.length <= |url.token.text|
    ensures Extracts(text, MemoryRange(url.token.at + f.offset, f.length), FieldToken(url, f))
  {
    var at := url.token.at + f.offset;
    var cut, expected := text[at..at + f.length], url.token.text[f.offset..f.offset + f.length];
    forall i | 0 <= i < f.length
      ensures cut[i] == expected[i]
    {
      assert text[url.token.at..url.token.at + |url.token.text|][f.offset + i] == text[at + i];
    }
    assert cut == expected;
  }

  lemma CountersAgree(q: Queue, p: Phase)
    requires Inv(q, p) && !p.Between?
    ensures q.HasCurrent()
    ensures q.Current().Counted() && q.Current().currentHeader == q.currentHeader
  {
  }

  /** The queue q' has gone on from q with the same request, which now records the segments. */
  ghost predicate Recording(q: Queue, q': Queue, segments: seq<Segment>, at: nat, text: string) {
    && Inv(q', PhaseAfter(segments)) && q'.incoming == q.incoming && q'.buffer == q.buffer && q'.delivered == q.delivered
    && q'.HasCurrent() && Recorded(q'.Current(), segments, at, text)
  }

  /** The event of one segment goes through and records its token. */
  lemma SegmentRecords(q: Queue, segments: seq<Segment>, left: string, text: string)
    requires segments != [] && WellFormed(segments) && left + Text(segments) <= text && left + Text(segments) <= q.buffer
    requires var before := segments[..|segments| - 1];
      Inv(q, PhaseAfter(before)) && q.HasCurrent() && Recorded(q.Current(), before, |left|, text)
    ensures var before, last := segments[..|segments| - 1], segments[|segments| - 1];
      var x := After(q, PhaseAfter(before), EventAt(last, |left| + |Text(before)|));
      && x.Some? && x.value.1 == PhaseAfter(segments)
      && Recording(q, x.value.0, segments, |left|, text)
  {
    hide Inv, Recorded;
    var before, last := segments[..|segments| - 1], segments[|segments| - 1];
    CountsAlternate(segments);
    CountsAlternate(before);
    var e := EventAt(last, |left| + |Text(before)|);
    CountersAgree(q, PhaseAfter(before));
    TokenRecorded(q.Current(), segments, left, text);
    if e != [] {
      RecordedCount(q.Current(), before, |left|, text);
      StepKeepsInv(q, PhaseAfter(before), e[0]);
      assert e[1..] == [];
    }
  }

  lemma RecordedCount(r: Request, segments: seq<Segment>, at: nat, text: string)
    requires Recorded(r, segments, at, text)
    ensures r.currentHeader == ValueCount(segments)
  {
  }

  /** All segments of one append, after those of earlier appends. */
  lemma {:induction false} SegmentsRecord(q: Queue, prior: seq<Segment>, segments: seq<Segment>, left: string, text: string)
    requires WellFormed(prior + segments) && left + Text(prior + segments) <= text && left + Text(prior + segments) <= q.buffer
    requires Inv(q, PhaseAfter(prior)) && q.HasCurrent() && Recorded(q.Current(), prior, |left|, text)
    ensures var x := After(q, PhaseAfter(prior), EventsAt(segments, |left| + |Text(prior)|));
      && x.Some? && x.value.1 == PhaseAfter(prior + segments)
      && Recording(q, x.value.0, prior + segments, |left|, text)
    decreases |segments|
  {
    hide Inv, Recorded, Recording, PhaseAfter, EventAt, EventsAt, Text, WellFormed, After;
    var p := PhaseAfter(prior);
    if segments == [] {
      EmptyEnds(q, p, prior);
      assert prior + segments == prior;
      RecordingStarts(q, prior, |left|, text);
    } else {
      var n := |segments| - 1;
      var before := prior + segments[..n];
      assert before + [segments[n]] == prior + segments;
      var all := prior + segments;
      assert all[..|all| - 1] == before && all[|all| - 1] == segments[n];
      TextGrows(before, all, left, text);
      TextGrows(before, all, left, q.buffer);
      WellFormedPrefix(before, [segments[n]]);
      SegmentsRecord(q, prior, segments[..n], left, text);
      var first := EventsAt(segments[..n], |left| + |Text(prior)|);
      var x := After(q, p, first).value;
      RecordingGives(q, x.0, before, |left|, text);
      SegmentRecords(x.0, all, left, text);
      TextSplits(prior, segments[..n]);
      var last := EventAt(segments[n], |left| + |Text(before)|);
      EventsSplit(segments, |left| + |Text(prior)|);
      AfterSplits(q, p, first, last);
      RecordingGoesOn(q, x.0, After(x.0, x.1, last).value.0, before, all, |left|, text);
    }
  }

  lemma EventsSplit(segments: seq<Segment>, at: nat)
    requires segments != []
    ensures var n := |segments| - 1;
      EventsAt(segments, at) == EventsAt(segments[..n], at) + EventAt(segments[n], at + |Text(segments[..n])|)
  {
    hide Text, EventAt;
  }

  lemma RecordingStarts(q: Queue, segments: seq<Segment>, at: nat, text: string)
    requires Inv(q, PhaseAfter(segments)) && q.HasCurrent() && Recorded(q.Current(), segments, at, text)
    ensures Recording(q, q, segments, at, text)
  {
  }

  lemma RecordingGives(q: Queue, q': Queue, segments: seq<Segment>, at: nat, text: string)
    requires Recording(q, q', segments, at, text)
    ensures Inv(q', PhaseAfter(segments)) && q'.incoming == q.incoming && q'.buffer == q.buffer
    ensures q'.HasCurrent() && Recorded(q'.Current(), segments, at, text)
  {
  }

  lemma RecordingGoesOn(q: Queue, q': Queue, q'': Queue, before: seq<Segment>, all: seq<Segment>, at: nat, text: string)
    requires Recording(q, q', before, at, text) && Recording(q', q'', all, at, text)
    ensures Recording(q, q'', all, at, text)
  {
  }

  lemma EmptyEnds(q: Queue, p: Phase, segments: seq<Segment>)
    requires Inv(q, p)
    ensures After(q, p, []) == Some((q, p)) && Text([]) == "" && forall at :: EventsAt([], at) == []
  {
  }

  lemma TextGrows(before: seq<Segment>, all: seq<Segment>, left: string, text: string)
    requires all != [] && before == all[..|all| - 1] && left + Text(all) <= text
    ensures left + Text(before) <= text
  {
    assert left + Text(all) == (left + Text(before)) + all[|all| - 1].text;
  }

  lemma {:induction false} TextSplits(a: seq<Segment>, b: seq<Segment>)
    ensures Text(a + b) == Text(a) + Text(b)
    decreases |b|
  {
    hide Text;
    if b == [] {
      assert a + b == a;
      NoText();
    } else {
      var n := |b| - 1;
      TextSplits(a, b[..n]);
      TextSnoc(a + b[..n], b[n]);
      TextSnoc(b[..n], b[n]);
      assert a + b == (a + b[..n]) + [b[n]] && b == b[..n] + [b[n]];
    }
  }

  lemma NoText()
    ensures Text([]) == ""
  {
  }

  lemma TextSnoc(segments: seq<Segment>, last: Segment)
    ensures Text(segments + [last]) == Text(segments) + last.text
  {
    assert (segments + [last])[..|segments|] == segments;
  }

  lemma {:induction false} WellFormedPrefix(a: seq<Segment>, b: seq<Segment>)
    requires WellFormed(a + b)
    ensures WellFormed(a)
    decreases |b|
  {
    if b == [] {
      assert a + b == a;
    } else {
      var ab := a + b;
      assert ab[..|ab| - 1] == a + b[..|b| - 1];
      WellFormedPrefix(a, b[..|b| - 1]);
    }
  }

  // ----------------------------------------------------------------------------------------------
  // Header sections, append by append
  // ----------------------------------------------------------------------------------------------

  function Flat(parts: seq<seq<Segment>>): seq<Segment> {
    if parts == [] then [] else Flat(parts[..|parts| - 1]) + parts[|parts| - 1]
  }

  /** What http_parser reports of the whole header section. */
  datatype Summary = Summary(verb: nat, keepAlive: bool, contentLength: int) {
    function BodyLength(): nat {
      if contentLength > 0 then contentLength else 0
    }
  }

  /** A header section of whole tokens, cut into the parts that arrive one after the other. */
  ghost predicate GoodHead(parts: seq<seq<Segment>>) {
    && WellFormed(Flat(parts)) && KeyCount(Flat(parts)) == ValueCount(Flat(parts))
    && parts != [] && forall k :: 0 <= k < |parts| ==> Text(parts[k]) != ""
  }

  /** The events at the end of the header section: without a body the message is complete. */
  function Ending(length: nat, summary: Summary): seq<Event> {
    [HeadersComplete(length, summary.verb, summary.keepAlive, summary.contentLength)]
    + if summary.contentLength > 0 then [] else [MessageComplete]
  }

  /** The tokens of part k, behind `left` bytes and the parts before; the first part begins the message. */
  function TokenEvents(left: nat, parts: seq<seq<Segment>>, k: nat): seq<Event>
    requires k < |parts|
  {
    (if k == 0 then [MessageBegin] else []) + EventsAt(parts[k], left + |Text(Flat(parts[..k]))|)
  }

  /** The append of part k, the last of which ends the headers. */
  function HeadAppend(left: nat, parts: seq<seq<Segment>>, k: nat, summary: Summary): Append
    requires k < |parts|
  {
    Append(Text(parts[k]), TokenEvents(left, parts, k) + if k + 1 == |parts| then Ending(|Text(Flat(parts))|, summary) else [])
  }

  /** The first k appends of a header section that starts behind `left` bytes. */
  function HeadAppends(left: nat, parts: seq<seq<Segment>>, k: nat, summary: Summary): seq<Append>
    requires k <= |parts|
  {
    if k == 0 then [] else HeadAppends(left, parts, k - 1, summary) + [HeadAppend(left, parts, k - 1, summary)]
  }

  /** The queue while the first k parts of a header section have arrived behind what was left. */
  ghost predicate Arriving(q0: Queue, q: Queue, p: Phase, left: string, parts: seq<seq<Segment>>, k: nat)
    requires k <= |parts|
  {
    var segments := Flat(parts[..k]);
    && p == PhaseAfter(segments) && Inv(q, p)
    && q.buffer == left + Text(segments) && q.incoming == q0.incoming && q.delivered == q0.delivered
    && q.HasCurrent() && Recorded(q.Current(), segments, |left|, left + Text(Flat(parts)))
  }

  lemma {:induction false} FlatPrefix(parts: seq<seq<Segment>>, k: nat)
    requires k <= |parts| && WellFormed(Flat(parts))
    ensures WellFormed(Flat(parts[..k])) && Text(Flat(parts[..k])) <= Text(Flat(parts))
    decreases |parts|
  {
    hide WellFormed, Text;
    var n := |parts|;
    if k == n {
      assert parts[..k] == parts;
    } else {
      WellFormedPrefix(Flat(parts[..n - 1]), parts[n - 1]);
      TextSplits(Flat(parts[..n - 1]), parts[n - 1]);
      FlatPrefix(parts[..n - 1], k);
      assert parts[..n - 1][..k] == parts[..k];
    }
  }

  ghost predicate Joins(buffer: string, left: string, a: string, b: string) {
    buffer == (left + a) + b
  }

  /** The tokens of one part are recorded, whatever comes before in the same append is done. */
  lemma TokensArrive(q0: Queue, q: Queue, p: Phase, left: string, parts: seq<seq<Segment>>, k: nat)
    requires k < |parts| && WellFormed(Flat(parts))
    requires var segments := Flat(parts[..k]);
      && p == PhaseAfter(segments) && Inv(q, p)
      && Joins(q.buffer, left, Text(segments), Text(parts[k])) && q.incoming == q0.incoming && q.delivered == q0.delivered
      && q.HasCurrent() && Recorded(q.Current(), segments, |left|, left + Text(Flat(parts)))
    ensures var x := After(q, p, EventsAt(parts[k], |left| + |Text(Flat(parts[..k]))|));
      x.Some? && Arriving(q0, x.value.0, x.value.1, left, parts, k + 1)
  {
    hide WellFormed, Text, Recorded, Inv, After, EventsAt, Flat, Recording, Arriving, PhaseAfter, Joins;
    var prior := Flat(parts[..k]);
    FlatStep(parts, k);
    FlatPrefix(parts, k + 1);
    PartRecords(q, p, prior, parts[k], Flat(parts[..k + 1]), left, Text(Flat(parts)));
    RecordingArrives(q0, q, After(q, p, EventsAt(parts[k], |left| + |Text(prior)|)).value.0, left, parts, k + 1);
  }

  lemma PartRecords(q: Queue, p: Phase, prior: seq<Segment>, part: seq<Segment>, all: seq<Segment>, left: string, whole: string)
    requires all == prior + part && WellFormed(all) && Text(all) <= whole && Joins(q.buffer, left, Text(prior), Text(part))
    requires p == PhaseAfter(prior) && Inv(q, p) && q.HasCurrent() && Recorded(q.Current(), prior, |left|, left + whole)
    ensures q.buffer == left + Text(all)
    ensures var x := After(q, p, EventsAt(part, |left| + |Text(prior)|));
      x.Some? && x.value.1 == PhaseAfter(all) && Recording(q, x.value.0, all, |left|, left + whole)
  {
    hide WellFormed, Text, Recorded, Inv, After, EventsAt, Recording, PhaseAfter;
    TextSplits(prior, part);
    BehindLeft(left, Text(prior), Text(part), Text(all), whole);
    SegmentsRecord(q, prior, part, left, left + whole);
  }

  lemma BehindLeft(left: string, a: string, b: string, ab: string, text: string)
    requires ab == a + b && ab <= text
    ensures (left + a) + b == left + ab && left + ab <= left + text
  {
  }

  lemma FlatStep(parts: seq<seq<Segment>>, k: nat)
    requires k < |parts|
    ensures Flat(parts[..k + 1]) == Flat(parts[..k]) + parts[k]
  {
    assert parts[..k + 1][..k] == parts[..k];
  }

  lemma RecordingArrives(q0: Queue, q: Queue, q': Queue, left: string, parts: seq<seq<Segment>>, k: nat)
    requires k <= |parts| && q.incoming == q0.incoming && q.delivered == q0.delivered
    requires q.buffer == left + Text(Flat(parts[..k])) && Recording(q, q', Flat(parts[..k]), |left|, left + Text(Flat(parts)))
    ensures Arriving(q0, q', PhaseAfter(Flat(parts[..k])), left, parts, k)
  {
    hide Recorded, Inv;
  }

  /** The first event of a request: a fresh request records nothing yet. */
  lemma RequestBegins(q: Queue, at: nat, text: string)
    requires Inv(q, Between) && q.incoming < MAX_REQUESTS
    ensures var x := After(q, Between, [MessageBegin]);
      && x.Some? && x.value.1 == InHead && Inv(x.value.0, InHead)
      && x.value.0.buffer == q.buffer && x.value.0.incoming == q.incoming && x.value.0.delivered == q.delivered
      && x.value.0.HasCurrent() && Recorded(x.value.0.Current(), [], at, text)
  {
    StepKeepsInv(q, Between, MessageBegin);
    assert [MessageBegin][1..] == [];
  }

  lemma NothingYet(parts: seq<seq<Segment>>)
    ensures Flat(parts[..0]) == [] && Text([]) == "" && PhaseAfter([]) == InHead
  {
  }

  /** One part arrives, the first with the beginning of the message. */
  lemma PartArrives(q0: Queue, q: Queue, p: Phase, left: string, parts: seq<seq<Segment>>, k: nat)
    requires k < |parts| && GoodHead(parts)
    requires if k == 0 then q == q0 && p == Between && Inv(q0, Between) && q0.buffer == left && q0.incoming < MAX_REQUESTS
             else Arriving(q0, q, p, left, parts, k)
    ensures Inv(q, p)
    ensures var x := After(q, p, [Arrival(Text(parts[k]))] + TokenEvents(|left|, parts, k));
      x.Some? && Arriving(q0, x.value.0, x.value.1, left, parts, k + 1)
  {
    hide WellFormed, Recorded, Inv, After, EventsAt, Flat, KeyCount, ValueCount;
    AfterArrival(q, p, Text(parts[k]));
    var q1 := q.Grown(Text(parts[k]));
    var tokens := EventsAt(parts[k], |left| + |Text(Flat(parts[..k]))|);
    if k == 0 {
      RequestBegins(q1, |left|, left + Text(Flat(parts)));
      var x := After(q1, Between, [MessageBegin]).value;
      NothingYet(parts);
      assert left + "" == left;
      TokensArrive(q0, x.0, x.1, left, parts, 0);
      AfterSplits(q1, Between, [MessageBegin], tokens);
    } else {
      TokensArrive(q0, q1, p, left, parts, k);
      assert [] + tokens == tokens;
    }
    AfterSplits(q, p, [Arrival(Text(parts[k]))], TokenEvents(|left|, parts, k));
  }

  lemma {:induction false} HeadAppendsLength(left: nat, parts: seq<seq<Segment>>, k: nat, summary: Summary)
    requires k <= |parts|
    ensures |HeadAppends(left, parts, k, summary)| == k
    ensures k > 0 ==>
      AllEvents(HeadAppends(left, parts, k, summary))
      == AllEvents(HeadAppends(left, parts, k - 1, summary)) + HeadAppend(left, parts, k - 1, summary).Events()
  {
    hide HeadAppend, Append.Events;
    if k > 0 {
      HeadAppendsLength(left, parts, k - 1, summary);
      var all := HeadAppends(left, parts, k, summary);
      assert all[..k - 1] == HeadAppends(left, parts, k - 1, summary);
    }
  }

  /** All parts but the last. */
  lemma {:induction false} PartsArrive(q: Queue, parts: seq<seq<Segment>>, k: nat, summary: Summary)
    requires Inv(q, Between) && q.incoming < MAX_REQUESTS && GoodHead(parts) && k < |parts|
    ensures var x := After(q, Between, AllEvents(HeadAppends(|q.buffer|, parts, k, summary)));
      x.Some? && if k == 0 then x.value == (q, Between) else Arriving(q, x.value.0, x.value.1, q.buffer, parts, k)
    decreases k
  {
    hide GoodHead, Text, Inv, After, TokenEvents, Arriving, Ending, AllEvents;
    var left := |q.buffer|;
    if k > 0 {
      PartsArrive(q, parts, k - 1, summary);
      var before := AllEvents(HeadAppends(left, parts, k - 1, summary));
      var (q1, p1) := After(q, Between, before).value;
      PartArrives(q, q1, p1, q.buffer, parts, k - 1);
      HeadAppendsLength(left, parts, k, summary);
      assert TokenEvents(left, parts, k - 1) + [] == TokenEvents(left, parts, k - 1);
      AfterSplits(q, Between, before, HeadAppend(left, parts, k - 1, summary).Events());
    } else {
      NoEvents(q);
    }
  }

  lemma NoEvents(q: Queue)
    requires Inv(q, Between)
    ensures AllEvents([]) == [] && After(q, Between, []) == Some((q, Between))
  {
  }

  // ----------------------------------------------------------------------------------------------
  // The end of the headers, the body, and the end of the message
  // ----------------------------------------------------------------------------------------------

  /** What a request copies of the buffer: as many bytes as its header section has, from the buffer's start. */
  function Copy(left: string, text: string): string {
    (left + text)[..|text|]
  }

  /** What stays in the buffer. */
  function Rest(left: string, text: string): (rest: string)
    ensures |rest| == |left|
  {
    (left + text)[|text|..]
  }

  /** What a request is whose header section arrived behind `left`, with `got` of its body. */
  ghost predicate IsRequest(r: Request, left: string, segments: seq<Segment>, summary: Summary, got: string) {
    && r.headersBuffer == Copy(left, Text(segments)) && Recorded(r, segments, |left|, left + Text(segments))
    && r.verb == summary.verb && |r.body| == summary.BodyLength()
    && r.bodyLength == |got| <= |r.body| && r.body[..r.bodyLength] == got
  }

  /** The headers are complete, and so much of the body has arrived, which stays in the buffer. */
  ghost predicate InItsBody(q0: Queue, q: Queue, left: string, segments: seq<Segment>, summary: Summary, got: string) {
    && Inv(q, InBody) && q.buffer == Rest(left, Text(segments)) + got && q.incoming == q0.incoming && q.delivered == q0.delivered
    && q.HasCurrent() && IsRequest(q.Current(), left, segments, summary, got) && q.Current().isLast == !summary.keepAlive
  }

  /** The request is handed out, behind those before it. */
  ghost predicate Delivers(q0: Queue, q: Queue, left: string, segments: seq<Segment>, summary: Summary, body: string) {
    && Inv(q, Between) && q.buffer == Rest(left, Text(segments)) + body && q.incoming == q0.incoming + 1
    && |q.delivered| == |q0.delivered| + 1 && q.delivered[..|q0.delivered|] == q0.delivered
    && var r := q.delivered[|q0.delivered|];
       IsRequest(r, left, segments, summary, body) && r.isLast == (!summary.keepAlive || q0.incoming + 1 == MAX_REQUESTS)
  }

  lemma RecordedByRanges(r: Request, r': Request, segments: seq<Segment>, at: nat, text: string)
    requires Recorded(r, segments, at, text) && r'.Counted()
    requires r'.urlRange == r.urlRange && r'.urlFields == r.urlFields && r'.headers == r.headers && r'.currentHeader == r.currentHeader
    ensures Recorded(r', segments, at, text)
  {
  }

  /** The end of the headers. */
  lemma HeadEnds(q0: Queue, q: Queue, p: Phase, left: string, parts: seq<seq<Segment>>, summary: Summary)
    requires Arriving(q0, q, p, left, parts, |parts|)
    requires var segments := Flat(parts); KeyCount(segments) == ValueCount(segments) && Text(segments) != ""
    ensures var e := HeadersComplete(|Text(Flat(parts))|, summary.verb, summary.keepAlive, summary.contentLength);
      && NextPhase(p, e) == Some(InBody) && q.Judge(e).Goes?
      && InItsBody(q0, q.Next(e), left, Flat(parts), summary, "")
  {
    hide Text, KeyCount, ValueCount, Recorded, PhaseAfter;
    assert parts[..|parts|] == parts;
    var text := Text(Flat(parts));
    HeadIsComplete(Flat(parts));
    InHeadFacts(q);
    var e := HeadersComplete(|text|, summary.verb, summary.keepAlive, summary.contentLength);
    StepKeepsInv(q, p, e);
    RecordedByRanges(q.Current(), q.Next(e).Current(), Flat(parts), |left|, left + text);
    assert q.Next(e).buffer == Rest(left, text) + "";
  }

  lemma HeadIsComplete(segments: seq<Segment>)
    requires KeyCount(segments) == ValueCount(segments)
    ensures PhaseAfter(segments) == InHead
  {
  }

  /** A piece of the body is read where it arrived, and ends up behind those before it. */
  lemma BodyArrives(q0: Queue, q: Queue, left: string, segments: seq<Segment>, summary: Summary, got: string, data: string)
    requires InItsBody(q0, q, left, segments, summary, got) && data != "" && |got| + |data| <= summary.BodyLength()
    ensures var q1, e := q.Grown(data), Body(|q.buffer|, |data|);
      && Inv(q1, InBody) && q1.Judge(e).Goes? && InItsBody(q0, q1.Next(e), left, segments, summary, got + data)
  {
    hide Text, Recorded, Copy, Rest;
    var q1, e := q.Grown(data), Body(|q.buffer|, |data|);
    DataArrive(q, data);
    StepKeepsInv(q, InBody, Arrival(data));
    assert q1.buffer[|q.buffer|..|q.buffer| + |data|] == data;
    StepKeepsInv(q1, InBody, e);
    var r, r' := q.Current(), q1.Next(e).Current();
    RecordedByRanges(r, r', segments, |left|, left + Text(segments));
    assert r'.body[..r'.bodyLength] == got + data;
    assert q1.buffer == Rest(left, Text(segments)) + (got + data);
  }

  /** The end of the message. */
  lemma RequestEnds(q0: Queue, q: Queue, left: string, segments: seq<Segment>, summary: Summary, got: string)
    requires InItsBody(q0, q, left, segments, summary, got) && Inv(q0, Between)
    ensures q.Judge(MessageComplete).Goes? && Delivers(q0, q.Next(MessageComplete), left, segments, summary, got)
  {
    hide Text, Recorded, Copy, Rest;
    InBodyFacts(q);
    StepKeepsInv(q, InBody, MessageComplete);
    var r' := q.Next(MessageComplete).delivered[|q0.delivered|];
    RecordedByRanges(q.Current(), r', segments, |left|, left + Text(segments));
  }

  lemma InBodyFacts(q: Queue)
    requires Inv(q, InBody)
    ensures q.outgoing == q.incoming < MAX_REQUESTS && q.HasCurrent() && q.Current().Counted()
  {
  }

  /** What the header section leads to: the whole request, or one that waits for its body. */
  ghost predicate HeadDone(q0: Queue, x: (Queue, Phase), left: string, segments: seq<Segment>, summary: Summary) {
    if summary.contentLength > 0 then x.1 == InBody && InItsBody(q0, x.0, left, segments, summary, "")
    else x.1 == Between && Delivers(q0, x.0, left, segments, summary, "")
  }

  lemma EndingArrives(q0: Queue, q: Queue, p: Phase, left: string, parts: seq<seq<Segment>>, summary: Summary)
    requires Arriving(q0, q, p, left, parts, |parts|) && Inv(q0, Between) && Inv(q, p)
    requires var segments := Flat(parts); KeyCount(segments) == ValueCount(segments) && Text(segments) != ""
    ensures var x := After(q, p, Ending(|Text(Flat(parts))|, summary));
      x.Some? && HeadDone(q0, x.value, left, Flat(parts), summary)
  {
    hide Text, KeyCount, ValueCount, Arriving, InItsBody, Delivers, Inv, Queue.Judge, Queue.Next, After;
    var e := HeadersComplete(|Text(Flat(parts))|, summary.verb, summary.keepAlive, summary.contentLength);
    HeadEnds(q0, q, p, left, parts, summary);
    StepKeepsInv(q, p, e);
    AfterOne(q, p, e);
    if summary.contentLength > 0 {
      assert Ending(|Text(Flat(parts))|, summary) == [e];
    } else {
      RequestEnds(q0, q.Next(e), left, Flat(parts), summary, "");
      AfterOne(q.Next(e), InBody, MessageComplete);
      AfterSplits(q, p, [e], [MessageComplete]);
    }
  }

  /**
    The header section of a request of whole tokens, split across any number of appends: if there is a slot, then
    without a body the request is handed out, and with one it waits for it.
   */
  lemma HeadReadsBack(q: Queue, parts: seq<seq<Segment>>, summary: Summary)
    requires Inv(q, Between) && q.incoming < MAX_REQUESTS && GoodHead(parts)
    ensures var x := After(q, Between, AllEvents(HeadAppends(|q.buffer|, parts, |parts|, summary)));
      x.Some? && HeadDone(q, x.value, q.buffer, Flat(parts), summary)
  {
    hide Text, Inv, After, TokenEvents, Arriving, Flat, KeyCount, ValueCount, Ending, HeadDone, AllEvents, WellFormed;
    var n, left := |parts|, |q.buffer|;
    PartsArrive(q, parts, n - 1, summary);
    var before := AllEvents(HeadAppends(left, parts, n - 1, summary));
    var (q1, p1) := After(q, Between, before).value;
    PartArrives(q, q1, p1, q.buffer, parts, n - 1);
    HeadAppendsLength(left, parts, n, summary);
    var first, last := [Arrival(Text(parts[n - 1]))] + TokenEvents(left, parts, n - 1), Ending(|Text(Flat(parts))|, summary);
    assert HeadAppend(left, parts, n - 1, summary).Events() == first + last;
    AfterSplits(q1, p1, first, last);
    var x := After(q1, p1, first).value;
    HeadIsNotEmpty(parts);
    EndingArrives(q, x.0, x.1, q.buffer, parts, summary);
    AfterSplits(q, Between, before, first + last);
  }

  lemma HeadIsNotEmpty(parts: seq<seq<Segment>>)
    requires parts != [] && Text(parts[|parts| - 1]) != ""
    ensures Text(Flat(parts)) != ""
  {
    hide Text;
    var n := |parts|;
    TextSplits(Flat(parts[..n - 1]), parts[n - 1]);
  }

  // ----------------------------------------------------------------------------------------------
  // Bodies
  // ----------------------------------------------------------------------------------------------

  function Concat(chunks: seq<string>): string {
    if chunks == [] then "" else Concat(chunks[..|chunks| - 1]) + chunks[|chunks| - 1]
  }

  /** The append of piece k of a body that starts behind `left` bytes; the last one ends the message. */
  function BodyAppend(left: nat, chunks: seq<string>, k: nat): Append
    requires k < |chunks|
  {
    Append(chunks[k], [Body(left + |Concat(chunks[..k])|, |chunks[k]|)] + if k + 1 == |chunks| then [MessageComplete] else [])
  }

  function BodyAppends(left: nat, chunks: seq<string>, k: nat): seq<Append>
    requires k <= |chunks|
  {
    if k == 0 then [] else BodyAppends(left, chunks, k - 1) + [BodyAppend(left, chunks, k - 1)]
  }

  /** The pieces of a body of the announced length. */
  ghost predicate GoodBody(chunks: seq<string>, summary: Summary) {
    |Concat(chunks)| == summary.BodyLength() && forall k :: 0 <= k < |chunks| ==> chunks[k] != ""
  }

  lemma {:induction false} BodyAppendsLength(left: nat, chunks: seq<string>, k: nat)
    requires k <= |chunks|
    ensures |BodyAppends(left, chunks, k)| == k
    ensures k > 0 ==>
      AllEvents(BodyAppends(left, chunks, k)) == AllEvents(BodyAppends(left, chunks, k - 1)) + BodyAppend(left, chunks, k - 1).Events()
  {
    hide BodyAppend, Append.Events;
    if k > 0 {
      BodyAppendsLength(left, chunks, k - 1);
      var all := BodyAppends(left, chunks, k);
      assert all[..k - 1] == BodyAppends(left, chunks, k - 1);
    }
  }

  lemma {:induction false} ConcatPrefix(chunks: seq<string>, k: nat)
    requires k <= |chunks|
    ensures |Concat(chunks[..k])| <= |Concat(chunks)|
    decreases |chunks|
  {
    var n := |chunks|;
    if k == n {
      assert chunks[..k] == chunks;
    } else {
      ConcatPrefix(chunks[..n - 1], k);
      assert chunks[..n - 1][..k] == chunks[..k];
    }
  }

  /** One piece arrives and is read. */
  lemma ChunkArrives(q0: Queue, q: Queue, left: string, segments: seq<Segment>, summary: Summary, chunks: seq<string>, k: nat)
    requires k < |chunks| && GoodBody(chunks, summary)
    requires InItsBody(q0, q, left, segments, summary, Concat(chunks[..k]))
    ensures Inv(q, InBody)
    ensures var x := After(q, InBody, [Arrival(chunks[k]), Body(|left| + |Concat(chunks[..k])|, |chunks[k]|)]);
      x.Some? && x.value.1 == InBody && InItsBody(q0, x.value.0, left, segments, summary, Concat(chunks[..k + 1]))
  {
    hide Inv, After, Queue.Judge, Queue.Next, IsRequest, Rest;
    ConcatPrefix(chunks, k + 1);
    assert chunks[..k + 1][..k] == chunks[..k];
    var e, e' := Arrival(chunks[k]), Body(|left| + |Concat(chunks[..k])|, |chunks[k]|);
    BodyArrives(q0, q, left, segments, summary, Concat(chunks[..k]), chunks[k]);
    AfterArrival(q, InBody, chunks[k]);
    AfterOne(q.Grown(chunks[k]), InBody, e');
    AfterSplits(q, InBody, [e], [e']);
    assert [e] + [e'] == [e, e'];
  }

  lemma {:induction false} ChunksArrive(q0: Queue, q: Queue, left: string, segments: seq<Segment>, summary: Summary, chunks: seq<string>, k: nat)
    requires InItsBody(q0, q, left, segments, summary, "") && Inv(q, InBody) && k < |chunks| && GoodBody(chunks, summary)
    ensures var x := After(q, InBody, AllEvents(BodyAppends(|left|, chunks, k)));
      x.Some? && x.value.1 == InBody && InItsBody(q0, x.value.0, left, segments, summary, Concat(chunks[..k]))
    decreases k
  {
    hide InItsBody, Inv, GoodBody, AllEvents;
    if k > 0 {
      ChunksArrive(q0, q, left, segments, summary, chunks, k - 1);
      hide After;
      var before := AllEvents(BodyAppends(|left|, chunks, k - 1));
      var q1 := After(q, InBody, before).value.0;
      ChunkArrives(q0, q1, left, segments, summary, chunks, k - 1);
      BodyAppendsLength(|left|, chunks, k);
      var piece := [Arrival(chunks[k - 1]), Body(|left| + |Concat(chunks[..k - 1])|, |chunks[k - 1]|)];
      assert BodyAppend(|left|, chunks, k - 1).Events() == piece;
      AfterSplits(q, InBody, before, piece);
    } else {
      assert chunks[..0] == [];
      NothingRead(q);
    }
  }

  lemma NothingRead(q: Queue)
    requires Inv(q, InBody)
    ensures AllEvents([]) == [] && After(q, InBody, []) == Some((q, InBody)) && Concat([]) == ""
  {
  }

  lemma LastPiece(left: nat, chunks: seq<string>)
    requires chunks != []
    ensures var k := |chunks| - 1;
      BodyAppend(left, chunks, k).Events() == [Arrival(chunks[k]), Body(left + |Concat(chunks[..k])|, |chunks[k]|)] + [MessageComplete]
  {
  }

  /** A body in appends of its own, behind its header section: the request is handed out with exactly the bytes that arrived. */
  lemma BodyReadsBack(q0: Queue, q: Queue, left: string, segments: seq<Segment>, summary: Summary, chunks: seq<string>)
    requires Inv(q0, Between) && InItsBody(q0, q, left, segments, summary, "") && Inv(q, InBody)
    requires GoodBody(chunks, summary) && chunks != []
    ensures var x := After(q, InBody, AllEvents(BodyAppends(|left|, chunks, |chunks|)));
      x.Some? && x.value.1 == Between && Delivers(q0, x.value.0, left, segments, summary, Concat(chunks))
  {
    hide InItsBody, Delivers, Inv, After, Queue.Judge, Queue.Next, GoodBody, AllEvents, Concat, BodyAppends, BodyAppend;
    var n := |chunks|;
    ChunksArrive(q0, q, left, segments, summary, chunks, n - 1);
    var before := AllEvents(BodyAppends(|left|, chunks, n - 1));
    var q1 := After(q, InBody, before).value.0;
    ChunkArrives(q0, q1, left, segments, summary, chunks, n - 1);
    assert chunks[..n] == chunks;
    var piece := [Arrival(chunks[n - 1]), Body(|left| + |Concat(chunks[..n - 1])|, |chunks[n - 1]|)];
    var q2 := After(q1, InBody, piece).value.0;
    RequestEnds(q0, q2, left, segments, summary, Concat(chunks));
    AfterKeepsInv(q1, InBody, piece);
    AfterOne(q2, InBody, MessageComplete);
    AfterSplits(q1, InBody, piece, [MessageComplete]);
    BodyAppendsLength(|left|, chunks, n);
    LastPiece(|left|, chunks);
    AfterSplits(q, InBody, before, piece + [MessageComplete]);
  }

  // ----------------------------------------------------------------------------------------------
  // Whole requests and whole connections
  // ----------------------------------------------------------------------------------------------

  /** A request as it is sent: its header section in parts, and its body in pieces of its own. */
  datatype Whole = Whole(parts: seq<seq<Segment>>, summary: Summary, chunks: seq<string>) {
    ghost predicate Good() {
      GoodHead(parts) && GoodBody(chunks, summary)
    }

    function Segments(): seq<Segment> {
      Flat(parts)
    }

    /** Its appends behind `left` bytes; that many are left when its body starts. */
    function Appends(left: nat): seq<Append> {
      HeadAppends(left, parts, |parts|, summary) + BodyAppends(left, chunks, |chunks|)
    }

    /** What it leaves in the buffer. */
    function Leaves(left: string): string {
      Rest(left, Text(Segments())) + Concat(chunks)
    }
  }

  lemma NoChunks(chunks: seq<string>)
    requires Concat(chunks) == "" && forall k :: 0 <= k < |chunks| ==> chunks[k] != ""
    ensures chunks == []
  {
  }

  lemma ConcatNone()
    ensures Concat([]) == ""
  {
  }

  lemma WholeArrives(q: Queue, w: Whole)
    requires Inv(q, Between) && q.incoming < MAX_REQUESTS && w.Good()
    ensures var x := After(q, Between, AllEvents(w.Appends(|q.buffer|)));
      x.Some? && x.value.1 == Between && Delivers(q, x.value.0, q.buffer, w.Segments(), w.summary, Concat(w.chunks))
  {
    hide Delivers, InItsBody, Inv, After, AllEvents, GoodHead, Concat, Flat;
    var left := |q.buffer|;
    var head, body := HeadAppends(left, w.parts, |w.parts|, w.summary), BodyAppends(left, w.chunks, |w.chunks|);
    HeadReadsBack(q, w.parts, w.summary);
    AllEventsSplit(head, body);
    var x := After(q, Between, AllEvents(head)).value;
    AfterKeepsInv(q, Between, AllEvents(head));
    ConcatNone();
    if w.summary.contentLength > 0 {
      BodyReadsBack(q, x.0, q.buffer, w.Segments(), w.summary, w.chunks);
      AfterSplits(q, Between, AllEvents(head), AllEvents(body));
    } else {
      NoChunks(w.chunks);
      assert head + body == head;
    }
  }

  /**
    A request of whole tokens, its header section split across any number of appends and its body, if any, in
    appends of its own.  If there is a slot, all its events go through and it is handed out, with ranges that cut
    the original tokens out of what was in the buffer, and with exactly the bytes of its body.  Without a slot its
    first callback faults.
   */
  lemma RequestReadsBack(q: Queue, w: Whole)
    requires Inv(q, Between) && w.Good()
    ensures var events := AllEvents(w.Appends(|q.buffer|)); var c := Run(q, events);
      if q.incoming < MAX_REQUESTS
      then c.went == |events| && c.verdict.Goes? && Delivers(q, c.queue, q.buffer, w.Segments(), w.summary, Concat(w.chunks))
      else c == Course(1, q.Grown(Text(w.parts[0])), Faults)
  {
    hide Delivers, Inv, After, AllEvents, Whole.Appends, Run;
    var events := AllEvents(w.Appends(|q.buffer|));
    if q.incoming < MAX_REQUESTS {
      WholeArrives(q, w);
      AfterIsRun(q, Between, events);
    } else {
      WholeStarts(|q.buffer|, w);
      NoSlotFaults(q, Text(w.parts[0]), events);
    }
  }

  /** The first two events of a request: data arrive, and a message begins. */
  lemma WholeStarts(left: nat, w: Whole)
    requires w.parts != []
    ensures var events := AllEvents(w.Appends(left)); |events| > 1 && events[0] == Arrival(Text(w.parts[0])) && events[1] == MessageBegin
  {
    hide AllEvents, Text, Flat;
    AllEventsSplit(HeadAppends(left, w.parts, |w.parts|, w.summary), BodyAppends(left, w.chunks, |w.chunks|));
    HeadStarts(left, w.parts, |w.parts|, w.summary);
  }

  lemma {:induction false} HeadStarts(left: nat, parts: seq<seq<Segment>>, k: nat, summary: Summary)
    requires 0 < k <= |parts|
    ensures var events := AllEvents(HeadAppends(left, parts, k, summary));
      |events| > 1 && events[0] == Arrival(Text(parts[0])) && events[1] == MessageBegin
    decreases k
  {
    hide AllEvents, Text, Flat, EventsAt, Ending;
    HeadAppendsLength(left, parts, k, summary);
    if k > 1 {
      HeadStarts(left, parts, k - 1, summary);
    } else {
      NothingBefore(left, parts, summary);
      var events := HeadAppend(left, parts, 0, summary).Events();
      assert AllEvents(HeadAppends(left, parts, 1, summary)) == events;
      assert events[0] == Arrival(Text(parts[0])) && events[1] == MessageBegin;
    }
  }

  lemma NothingBefore(left: nat, parts: seq<seq<Segment>>, summary: Summary)
    ensures AllEvents(HeadAppends(left, parts, 0, summary)) == []
  {
  }

  lemma NoSlotFaults(q: Queue, data: string, events: seq<Event>)
    requires q.incoming >= MAX_REQUESTS && |events| > 1 && events[0] == Arrival(data) && data != "" && events[1] == MessageBegin
    ensures Run(q, events) == Course(1, q.Grown(data), Faults)
  {
    hide Run;
    DataArrive(q, data);
    RunFirst(q, events);
    RunFirst(q.Grown(data), events[1..]);
  }

  /** The appends of a connection: those of its requests, one request after the other. */
  function Connection(left: nat, ws: seq<Whole>): seq<Append>
    decreases |ws|
  {
    if ws == [] then [] else ws[0].Appends(left) + Connection(left + |Concat(ws[0].chunks)|, ws[1..])
  }

  /** What request i finds in the buffer. */
  function Leftover(left: string, ws: seq<Whole>, i: nat): string
    requires i <= |ws|
    decreases i
  {
    if i == 0 then left else Leftover(ws[0].Leaves(left), ws[1..], i - 1)
  }

  /** The first m requests have been handed out, in order. */
  ghost predicate HandedOut(q0: Queue, q: Queue, left: string, ws: seq<Whole>, m: nat)
    requires m <= |ws|
  {
    && Inv(q, Between) && |q.delivered| == |q0.delivered| + m && q0.delivered <= q.delivered
    && forall i :: 0 <= i < m ==>
         IsRequest(q.delivered[|q0.delivered| + i], Leftover(left, ws, i), ws[i].Segments(), ws[i].summary, Concat(ws[i].chunks))
  }

  /** As many of n requests as there are slots. */
  function Served(incoming: nat, n: nat): nat {
    if incoming >= MAX_REQUESTS then 0 else if n <= MAX_REQUESTS - incoming then n else MAX_REQUESTS - incoming
  }

  /**
    Any number of requests, one after the other: as many as there are slots are handed out in order, each with the
    tokens and the body that were sent; the next one faults at its first callback.
   */
  lemma {:induction false} ConnectionReadsBack(q: Queue, ws: seq<Whole>)
    requires Inv(q, Between) && forall i :: 0 <= i < |ws| ==> ws[i].Good()
    ensures var c, m := Run(q, AllEvents(Connection(|q.buffer|, ws))), Served(q.incoming, |ws|);
      && HandedOut(q, c.queue, q.buffer, ws, m)
      && c.verdict == (if m < |ws| then Faults else Goes)
      && c.went == |AllEvents(Connection(|q.buffer|, ws[..m]))| + if m < |ws| then 1 else 0
    decreases |ws|
  {
    hide Delivers, Inv, AllEvents, Connection, Whole.Good, Run, HandedOut;
    if ws == [] {
      NoRequests(q);
      NoConnection(|q.buffer|, ws);
    } else if q.incoming < MAX_REQUESTS {
      FirstServed(q, ws);
      ConnectionReadsBack(Run(q, AllEvents(ws[0].Appends(|q.buffer|))).queue, ws[1..]);
      RestServed(q, ws);
    } else {
      NoneServed(q, ws);
    }
  }

  lemma NoConnection(left: nat, ws: seq<Whole>)
    ensures AllEvents(Connection(left, ws[..0])) == []
  {
  }

  /** The first request is handed out, and the others find what it left. */
  lemma FirstServed(q: Queue, ws: seq<Whole>)
    requires Inv(q, Between) && ws != [] && ws[0].Good() && q.incoming < MAX_REQUESTS
    ensures var w := ws[0]; var events := AllEvents(w.Appends(|q.buffer|)); var c := Run(q, events);
      && c.went == |events| && c.verdict.Goes? && Inv(c.queue, Between) && c.queue.incoming == q.incoming + 1
      && c.queue.buffer == w.Leaves(q.buffer) && |c.queue.buffer| == |q.buffer| + |Concat(w.chunks)|
      && Delivers(q, c.queue, q.buffer, w.Segments(), w.summary, Concat(w.chunks))
  {
    hide Delivers, Inv, AllEvents, Whole.Good, Whole.Appends, Whole.Leaves, Run;
    RequestReadsBack(q, ws[0]);
    DeliversFacts(q, Run(q, AllEvents(ws[0].Appends(|q.buffer|))).queue, q.buffer, ws[0]);
  }

  /** A connection is its first request's events, then those of the others. */
  lemma ConnectionSplits(left: nat, ws: seq<Whole>)
    requires ws != []
    ensures AllEvents(Connection(left, ws)) == AllEvents(ws[0].Appends(left)) + AllEvents(Connection(left + |Concat(ws[0].chunks)|, ws[1..]))
  {
    hide AllEvents, Whole.Appends, Concat;
    AllEventsSplit(ws[0].Appends(left), Connection(left + |Concat(ws[0].chunks)|, ws[1..]));
  }

  /** What the others lead to, the first request does not change. */
  lemma RestServed(q: Queue, ws: seq<Whole>)
    requires Inv(q, Between) && ws != [] && ws[0].Good() && q.incoming < MAX_REQUESTS
    requires var q1 := Run(q, AllEvents(ws[0].Appends(|q.buffer|))).queue; var m := Served(q1.incoming, |ws[1..]|);
      var c := Run(q1, AllEvents(Connection(|q1.buffer|, ws[1..])));
      && HandedOut(q1, c.queue, q1.buffer, ws[1..], m)
      && c.verdict == (if m < |ws[1..]| then Faults else Goes)
      && c.went == |AllEvents(Connection(|q1.buffer|, ws[1..][..m]))| + if m < |ws[1..]| then 1 else 0
    ensures var c, m := Run(q, AllEvents(Connection(|q.buffer|, ws))), Served(q.incoming, |ws|);
      && HandedOut(q, c.queue, q.buffer, ws, m)
      && c.verdict == (if m < |ws| then Faults else Goes)
      && c.went == |AllEvents(Connection(|q.buffer|, ws[..m]))| + if m < |ws| then 1 else 0
  {
    hide Delivers, Inv, AllEvents, Connection, Whole.Good, Whole.Appends, Whole.Leaves, Run, HandedOut, Concat;
    var left, rest, events := |q.buffer|, ws[1..], AllEvents(ws[0].Appends(|q.buffer|));
    var q1 := Run(q, events).queue;
    var m := Served(q1.incoming, |rest|);
    FirstServed(q, ws);
    ConnectionSplits(left, ws);
    RunSplits(q, events, AllEvents(Connection(|q1.buffer|, rest)));
    HandedOutOnwards(q, q1, Run(q1, AllEvents(Connection(|q1.buffer|, rest))).queue, ws, m);
    TakeOneMore(ws, m);
    ConnectionSplits(left, ws[..m + 1]);
  }

  /** Without a slot the first request's second event faults. */
  lemma NoneServed(q: Queue, ws: seq<Whole>)
    requires Inv(q, Between) && ws != [] && ws[0].Good() && q.incoming >= MAX_REQUESTS
    ensures var c := Run(q, AllEvents(Connection(|q.buffer|, ws)));
      && HandedOut(q, c.queue, q.buffer, ws, 0) && c.verdict.Faults?
      && c.went == |AllEvents(Connection(|q.buffer|, ws[..0]))| + 1
  {
    hide Inv, AllEvents, Connection, Whole.Appends, Run, HandedOut, GoodHead, GoodBody, Text;
    GoodHasParts(ws[0]);
    RequestReadsBack(q, ws[0]);
    ConnectionSplits(|q.buffer|, ws);
    FaultStays(q, AllEvents(ws[0].Appends(|q.buffer|)), AllEvents(Connection(|q.buffer| + |Concat(ws[0].chunks)|, ws[1..])));
    GrownIsHandedOut(q, Text(ws[0].parts[0]), q.buffer, ws);
    NoConnection(|q.buffer|, ws);
  }

  lemma TakeOneMore(ws: seq<Whole>, m: nat)
    requires m < |ws|
    ensures ws[..m + 1][0] == ws[0] && ws[..m + 1][1..] == ws[1..][..m]
  {
    assert forall i :: 0 <= i < m ==> ws[..m + 1][1..][i] == ws[1..][..m][i];
  }

  lemma GoodHasParts(w: Whole)
    requires w.Good()
    ensures w.parts != []
  {
  }

  lemma NoRequests(q: Queue)
    requires Inv(q, Between)
    ensures AllEvents(Connection(|q.buffer|, [])) == [] && Run(q, []) == Course(0, q, Goes) && HandedOut(q, q, q.buffer, [], 0)
  {
  }

  lemma GrownIsHandedOut(q: Queue, data: string, left: string, ws: seq<Whole>)
    requires Inv(q, Between)
    ensures HandedOut(q, q.Grown(data), left, ws, 0)
  {
    GrownKeepsInv(q, Between, data);
  }

  lemma {:induction false} FaultStays(q: Queue, a: seq<Event>, b: seq<Event>)
    requires !Run(q, a).verdict.Goes?
    ensures Run(q, a + b) == Run(q, a)
    decreases |a|
  {
    hide Queue.Judge, Queue.Next;
    assert a != [] && (a + b)[1..] == a[1..] + b;
    if q.Judge(a[0]).Goes? {
      FaultStays(q.Next(a[0]), a[1..], b);
    }
  }

  lemma DeliversFacts(q0: Queue, q: Queue, left: string, w: Whole)
    requires Delivers(q0, q, left, w.Segments(), w.summary, Concat(w.chunks))
    ensures Inv(q, Between) && q.buffer == w.Leaves(left) && |q.buffer| == |left| + |Concat(w.chunks)| && q.incoming == q0.incoming + 1
  {
    hide Inv, IsRequest, Text, Concat;
  }

  lemma HandedOutOnwards(q0: Queue, q: Queue, q': Queue, ws: seq<Whole>, m: nat)
    requires ws != [] && m <= |ws[1..]|
    requires Delivers(q0, q, q0.buffer, ws[0].Segments(), ws[0].summary, Concat(ws[0].chunks)) && HandedOut(q, q', q.buffer, ws[1..], m)
    ensures HandedOut(q0, q', q0.buffer, ws, m + 1)
  {
    hide Inv, IsRequest, Text, Concat, Flat, Rest;
    var n := |q0.delivered|;
    forall i | 0 <= i < m + 1
      ensures IsRequest(q'.delivered[n + i], Leftover(q0.buffer, ws, i), ws[i].Segments(), ws[i].summary, Concat(ws[i].chunks))
    {
      if i == 0 {
        assert q'.delivered[n] == q.delivered[n];
      } else {
        assert ws[1..][i - 1] == ws[i];
        assert q'.delivered[|q.delivered| + (i - 1)] == q'.delivered[n + i];
      }
    }
    assert q0.delivered <= q'.delivered by {
      assert q.delivered[..n] == q0.delivered;
    }
  }

  // ----------------------------------------------------------------------------------------------
  // What is left in the buffer
  // ----------------------------------------------------------------------------------------------

  /** Requests without bodies leave the buffer as empty as they found it. */
  lemma {:induction false} BodylessLeaveNothing(ws: seq<Whole>, i: nat)
    requires i <= |ws| && forall k :: 0 <= k < |ws| ==> ws[k].chunks == []
    ensures Leftover("", ws, i) == ""
    decreases i
  {
    hide Text, Flat;
    ConcatNone();
    if i > 0 {
      BodylessLeaveNothing(ws[1..], i - 1);
    }
  }

  lemma {:induction false} KeysShift(segments: seq<Segment>, at: nat, i: nat)
    requires i < KeyCount(segments)
    ensures Keys(segments, at)[i] == Token(at + Keys(segments, 0)[i].at, Keys(segments, 0)[i].text)
  {
    if i < KeyCount(segments[..|segments| - 1]) {
      KeysShift(segments[..|segments| - 1], at, i);
    }
  }

  lemma {:induction false} ValuesShift(segments: seq<Segment>, at: nat, i: nat)
    requires i < ValueCount(segments)
    ensures Values(segments, at)[i] == Token(at + Values(segments, 0)[i].at, Values(segments, 0)[i].text)
  {
    if i < ValueCount(segments[..|segments| - 1]) {
      ValuesShift(segments[..|segments| - 1], at, i);
    }
  }

  /** A token lies in a copy of the first n bytes exactly if it ends within them. */
  lemma CutExactly(text: string, n: nat, r: MemoryRange, token: Token)
    requires Extracts(text, r, token) && n <= |text|
    ensures Extracts(text[..n], r, token) <==> token.at + |token.text| <= n
  {
    if token.at + |token.text| <= n {
      assert text[..n][token.at..token.at + |token.text|] == text[token.at..token.at + |token.text|];
    }
  }

  /**
    Behind leftover bytes a request's copy misses as many bytes at its end: the range of a header's key or value
    cuts it out of the copy if and only if the token ends at least that many bytes before the end of the section.
   */
  lemma LeftoverExactly(r: Request, left: string, segments: seq<Segment>, summary: Summary, got: string, i: nat)
    requires IsRequest(r, left, segments, summary, got)
    ensures i < KeyCount(segments) ==>
      && i < MAX_HEADERS
      && var token := Keys(segments, 0)[i];
         (Extracts(r.headersBuffer, r.headers[i].key, Keys(segments, |left|)[i])
          <==> token.at + |token.text| + |left| <= |Text(segments)|)
    ensures i < ValueCount(segments) ==>
      && i < MAX_HEADERS
      && var token := Values(segments, 0)[i];
         (Extracts(r.headersBuffer, r.headers[i].value, Values(segments, |left|)[i])
          <==> token.at + |token.text| + |left| <= |Text(segments)|)
  {
    hide Extracts, UrlRecorded, Text, Keys, Values;
    var text := Text(segments);
    if i < KeyCount(segments) {
      KeysShift(segments, |left|, i);
      CutExactly(left + text, |text|, r.headers[i].key, Keys(segments, |left|)[i]);
    }
    if i < ValueCount(segments) {
      ValuesShift(segments, |left|, i);
      CutExactly(left + text, |text|, r.headers[i].value, Values(segments, |left|)[i]);
    }
  }

  /** With nothing left over, the copy is the section itself, and every stored range cuts its token out of it. */
  lemma OwnCopy(r: Request, segments: seq<Segment>, summary: Summary, got: string)
    requires IsRequest(r, "", segments, summary, got)
    ensures r.headersBuffer == Text(segments) && Recorded(r, segments, 0, r.headersBuffer)
  {
    hide Text, Recorded;
    assert "" + Text(segments) == Text(segments);
  }

  // ----------------------------------------------------------------------------------------------
  // Looking headers up
  // ----------------------------------------------------------------------------------------------

  /** The value of the first key that agrees with the name, ignoring case. */
  function ValueFor(keys: seq<Token>, values: seq<Token>, name: string): Option<Token>
    requires |keys| == |values|
  {
    if keys == [] then None
    else if SameIgnoringCase(name, CString(keys[0].text)) then Some(values[0])
    else ValueFor(keys[1..], values[1..], name)
  }

  lemma {:induction false} ValueForFirst(keys: seq<Token>, values: seq<Token>, name: string, i: nat)
    requires |keys| == |values| && i <= |keys| && forall j :: 0 <= j < i ==> !SameIgnoringCase(name, CString(keys[j].text))
    requires i < |keys| ==> SameIgnoringCase(name, CString(keys[i].text))
    ensures ValueFor(keys, values, name) == if i < |keys| then Some(values[i]) else None
    decreases i
  {
    hide SameIgnoringCase, CString;
    if i > 0 {
      ValueForFirst(keys[1..], values[1..], name, i - 1);
    }
  }

  lemma KeysAreInside(r: Request, segments: seq<Segment>)
    requires Recorded(r, segments, 0, r.headersBuffer) && KeyCount(segments) == ValueCount(segments)
    ensures KeysInside(r)
  {
    assert forall i :: 0 <= i < KeyCount(segments) ==> Extracts(r.headersBuffer, r.headers[i].key, Keys(segments, 0)[i]);
  }

  /** A lookup answers the value token behind the first key token of that name. */
  lemma LookedIsValue(r: Request, segments: seq<Segment>, name: string, range: Option<MemoryRange>)
    requires Recorded(r, segments, 0, r.headersBuffer) && KeyCount(segments) == ValueCount(segments)
    requires KeysInside(r) && Looked(r, name, range)
    ensures match ValueFor(Keys(segments, 0), Values(segments, 0), name)
      case None => range == None
      case Some(value) => range.Some? && Extracts(r.headersBuffer, range.value, value)
  {
    hide SameIgnoringCase, CString, ValueFor, Keys, Values, LastUrl, UrlRecorded, HasName, Extracts, Recorded;
    var keys, values := Keys(segments, 0), Values(segments, 0);
    RecordedCount(r, segments, 0, r.headersBuffer);
    forall i | 0 <= i < |keys| ensures i < MAX_HEADERS && HasName(r, i, name) == SameIgnoringCase(name, CString(keys[i].text)) {
      NameIsToken(r, segments, name, i);
    }
    if range == None {
      ValueForFirst(keys, values, name, |keys|);
    } else {
      var i :| 0 <= i < r.currentHeader && HasName(r, i, name) && range.value == r.headers[i].value
               && forall j :: 0 <= j < i ==> !HasName(r, j, name);
      ValueForFirst(keys, values, name, i);
      ValueIsToken(r, segments, i);
    }
  }

  lemma NameIsToken(r: Request, segments: seq<Segment>, name: string, i: nat)
    requires Recorded(r, segments, 0, r.headersBuffer) && KeysInside(r)
    requires i < KeyCount(segments) == ValueCount(segments)
    ensures i < r.currentHeader <= MAX_HEADERS && HasName(r, i, name) == SameIgnoringCase(name, CString(Keys(segments, 0)[i].text))
  {
    hide SameIgnoringCase, CString, Keys, Values, LastUrl, UrlRecorded;
    assert Extracts(r.headersBuffer, r.headers[i].key, Keys(segments, 0)[i]);
  }

  lemma ValueIsToken(r: Request, segments: seq<Segment>, i: nat)
    requires Recorded(r, segments, 0, r.headersBuffer) && i < ValueCount(segments)
    ensures i < MAX_HEADERS && Extracts(r.headersBuffer, r.headers[i].value, Values(segments, 0)[i])
  {
    hide Extracts, Keys, Values, LastUrl, UrlRecorded;
  }

  /** On a request that was handed out, the value of a header cut out of the request's own copy. */
  method HeaderReadsBack(r: Request, name: string, ghost segments: seq<Segment>, ghost summary: Summary, ghost got: string)
    returns (value: Option<string>)
    requires IsRequest(r, "", segments, summary, got) && KeyCount(segments) == ValueCount(segments) && NUL !in name
    ensures value == match ValueFor(Keys(segments, 0), Values(segments, 0), name) case None => None case Some(token) => Some(token.text)
  {
    hide Keys, Values, ValueFor, Looked, KeysInside, Recorded, IsRequest;
    OwnCopy(r, segments, summary, got);
    KeysAreInside(r, segments);
    var range := GetHeaderValueRange(r, name);
    LookedIsValue(r, segments, name, range);
    value := if range == None then None else Some(r.headersBuffer[range.value.offset..range.value.offset + range.value.length]);
  }
}
