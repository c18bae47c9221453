/**
  The response buffer and the HTTP/1.1 printer (src/httpresponse.c), and a reader of HTTP/1.1 responses in
  the terms of RFC 7230 that the printed pages are proved to satisfy.
 */
module Response {
  import opened Prelude
  import Buffers

  const STATUSLINE_LEN := 36
  const CR := '\r'
  const LF := '\n'
  const HTTP_EOL: string := [CR, LF]

  /** Text without line breaks. */
  predicate IsText(s: string) {
    forall i :: 0 <= i < |s| ==> s[i] != CR && s[i] != LF
  }

  datatype Status = Status(code: nat, message: string)

  /** A row of the status table: three digits and a message that leaves room for them within the status line. */
  type StatusRow = s: Status | 100 <= s.code <= 999 && 4 + |s.message| < STATUSLINE_LEN && IsText(s.message)
    witness Status(200, "OK")

  function Row(code: nat, message: string): StatusRow
    requires 100 <= code <= 999 && 4 + |message| < STATUSLINE_LEN && IsText(message)
  {
    Status(code, message)
  }

  const INFORMATIONAL: seq<StatusRow> := [
    Row(100, "Continue"), Row(101, "Switching Protocols"),
    Row(102, "Processing")
  ]

  const SUCCESSFUL: seq<StatusRow> := [
    Row(200, "OK"), Row(201, "Created"),
    Row(202, "Accepted"), Row(203, "Non-Authoritative Information"),
    Row(204, "No Content")
  ]

  const MORE_SUCCESSFUL: seq<StatusRow> := [
    Row(205, "Reset Content"),
    Row(206, "Partial Content"), Row(207, "Multi-Status"),
    Row(208, "Already Reported"), Row(226, "IM Used")
  ]

  const REDIRECTION: seq<StatusRow> := [
    Row(300, "Multiple Choices"), Row(301, "Moved Permanently"),
    Row(302, "Found"), Row(303, "See Other"),
    Row(304, "Not Modified")
  ]

  const MORE_REDIRECTION: seq<StatusRow> := [
    Row(305, "Use Proxy"), Row(306, "Reserved"),
    Row(307, "Temporary Redirect"), Row(308, "Permanent Redirect")
  ]

  const CLIENT_ERRORS: seq<StatusRow> := [
    Row(400, "Bad Request"), Row(401, "Unauthorized"),
    Row(402, "Payment Required"), Row(403, "Forbidden"),
    Row(404, "Not Found")
  ]

  const METHOD_ERRORS: seq<StatusRow> := [
    Row(405, "Method Not Allowed"), Row(406, "Not Acceptable"),
    Row(407, "Proxy Authentication Required"), Row(408, "Request Timeout")
  ]

  const RESOURCE_ERRORS: seq<StatusRow> := [
    Row(409, "Conflict"), Row(410, "Gone"),
    Row(411, "Length Required"), Row(412, "Precondition Failed")
  ]

  const SIZE_ERRORS: seq<StatusRow> := [
    Row(413, "Request Entity Too Large"), Row(414, "Request-URI Too Long"),
    Row(415, "Unsupported Media Type")
  ]

  const RANGE_ERRORS: seq<StatusRow> := [
    Row(416, "Requested Range Not Satisfiable"),
    Row(417, "Expectation Failed"), Row(422, "Unprocessable Entity")
  ]

  const LOCK_ERRORS: seq<StatusRow> := [
    Row(423, "Locked"), Row(424, "Failed Dependency"),
    Row(426, "Upgrade Required")
  ]

  const RATE_ERRORS: seq<StatusRow> := [
    Row(428, "Precondition Required"),
    Row(429, "Too Many Requests"), Row(431, "Request Header Fields Too Large")
  ]

  const SERVER_ERRORS: seq<StatusRow> := [
    Row(500, "Internal Server Error"), Row(501, "Not Implemented"),
    Row(502, "Bad Gateway"), Row(503, "Service Unavailable")
  ]

  const GATEWAY_ERRORS: seq<StatusRow> := [
    Row(504, "Gateway Timeout"), Row(505, "HTTP Version Not Supported"),
    Row(506, "Variant Also Negotiates"), Row(507, "Insufficient Storage")
  ]

  const NETWORK_ERRORS: seq<StatusRow> := [
    Row(508, "Loop Detected"), Row(510, "Not Extended"),
    Row(511, "Network Authentication Required")
  ]

  const ALL_CLIENT_ERRORS: seq<StatusRow> :=
    CLIENT_ERRORS + METHOD_ERRORS + RESOURCE_ERRORS + SIZE_ERRORS + RANGE_ERRORS + LOCK_ERRORS + RATE_ERRORS

  const ALL_SERVER_ERRORS: seq<StatusRow> := SERVER_ERRORS + GATEWAY_ERRORS + NETWORK_ERRORS

  /** The table, in the source's order. */
  const STATUSES: seq<StatusRow> :=
    INFORMATIONAL + SUCCESSFUL + MORE_SUCCESSFUL + REDIRECTION + MORE_REDIRECTION + ALL_CLIENT_ERRORS + ALL_SERVER_ERRORS

  /** The message of the first row with the code. */
  function MessageIn(rows: seq<StatusRow>, code: nat): Option<string> {
    if rows == [] then None
    else if rows[0].code == code then Some(rows[0].message)
    else MessageIn(rows[1..], code)
  }

  function MessageOf(code: nat): Option<string> {
    MessageIn(STATUSES, code)
  }

  lemma {:induction false} MessageFacts(rows: seq<StatusRow>, code: nat)
    ensures var m := MessageIn(rows, code);
      m.Some? ==> 100 <= code <= 999 && 4 + |m.value| < STATUSLINE_LEN && IsText(m.value)
  {
    if rows != [] && rows[0].code != code {
      MessageFacts(rows[1..], code);
    }
  }

  /** What one error page is made of besides the server's name: its code, the date line and the last mark. */
  datatype Page = Page(code: nat, date: string, last: bool)

  function Header(key: string, value: string): string {
    key + ": " + value + HTTP_EOL
  }

  /** snprintf into a buffer of n bytes, terminator included. */
  function Truncated(s: string, n: nat): string
    requires n > 0
  {
    if |s| < n then s else s[..n - 1]
  }

  function StatusLine(code: nat, message: string): string {
    "HTTP/1.1 " + Truncated(Decimal(code) + " " + message, STATUSLINE_LEN) + HTTP_EOL
  }

  function ErrorBody(message: string): string {
    "<!DOCTYPE html><html><head><title>" + message + "</title></head><body><h1>" + message + "</h1></body></html>"
  }

  function ConnectionHeader(last: bool): string {
    if last then Header("Connection", "Close") else ""
  }

  function HeadersEnd(server: string, date: string, last: bool): string {
    Header("Server", server) + Header("Date", date) + ConnectionHeader(last) + HTTP_EOL
  }

  /** The whole error page, as the source's writers append it piece by piece. */
  function ErrorPage(server: string, page: Page, message: string): string {
    StatusLine(page.code, message)
    + Header("Content-Type", "text/html")
    + Header("Content-Length", Decimal(|ErrorBody(message)|))
    + HeadersEnd(server, page.date, page.last)
    + ErrorBody(message)
  }

  // ----------------------------------------------------------------------------------------------
  // A reader of HTTP/1.1 responses (RFC 7230, sections 3, 3.1.2, 3.2 and 3.3)
  // ----------------------------------------------------------------------------------------------

  datatype Field = Field(name: string, value: string)

  datatype Message = Message(code: nat, reason: string, fields: seq<Field>, body: string)

  /** A line and what follows its CRLF. */
  function ReadLine(s: string): (r: Option<(string, string)>)
    ensures r.Some? ==> |r.value.1| < |s|
  {
    if |s| < 2 then None
    else if s[0] == CR && s[1] == LF then Some(("", s[2..]))
    else match ReadLine(s[1..])
      case None => None
      case Some((line, rest)) => Some(([s[0]] + line, rest))
  }

  predicate IsDigit(c: char) { '0' <= c <= '9' }

  /** One or more digits. */
  function ReadDecimal(s: string): Option<nat> {
    if s == "" || !IsDigit(s[|s| - 1]) then None
    else
      var d := (s[|s| - 1] - '0') as nat;
      if |s| == 1 then Some(d)
      else match ReadDecimal(s[..|s| - 1])
        case None => None
        case Some(n) => Some(10 * n + d)
  }

  /** status-line = HTTP-version SP status-code SP reason-phrase CRLF (section 3.1.2). */
  function ReadStatusLine(line: string): Option<(nat, string)> {
    if |line| < 13 || line[..9] != "HTTP/1.1 " || line[12] != ' ' then None
    else match ReadDecimal(line[9..12])
      case None => None
      case Some(code) => Some((code, line[13..]))
  }

  predicate IsBlank(c: char) { c == ' ' || c == '\t' }

  /** Without the optional whitespace around a field value (section 3.2). */
  function Trim(s: string): string {
    if s == "" then s
    else if IsBlank(s[0]) then Trim(s[1..])
    else if IsBlank(s[|s| - 1]) then Trim(s[..|s| - 1])
    else s
  }

  /** field-name ":" OWS field-value OWS (section 3.2). */
  function ReadField(line: string): Option<Field> {
    if line == "" then None
    else if line[0] == ':' then Some(Field("", Trim(line[1..])))
    else match ReadField(line[1..])
      case None => None
      case Some(f) => Some(f.(name := [line[0]] + f.name))
  }

  /** The fields up to the empty line, and what follows it (section 3). */
  function ReadFields(s: string): (r: Option<(seq<Field>, string)>)
    ensures r.Some? ==> |r.value.1| < |s|
    decreases |s|
  {
    match ReadLine(s)
    case None => None
    case Some((line, rest)) =>
      if line == "" then Some(([], rest)) else
        match ReadField(line)
        case None => None
        case Some(f) =>
          if f.name == "" then None else
          match ReadFields(rest)
          case None => None
          case Some((fs, rest')) => Some(([f] + fs, rest'))
  }

  /** The value of the first field of that name; case does not matter (section 3.2). */
  function FieldValue(fields: seq<Field>, name: string): Option<string> {
    if fields == [] then None
    else if SameIgnoringCase(fields[0].name, name) then Some(fields[0].value)
    else FieldValue(fields[1..], name)
  }

  /**
    How the end of a message is found: by its Content-Length alone (section 3.3.2), or by the whole of section
    3.3.3, where a 1xx, 204 or 304 response ends with its header section whatever its fields say.
   */
  datatype Framing = ByLength | ByStatusThenLength {
    predicate Bodyless(code: nat) {
      ByStatusThenLength? && (code / 100 == 1 || code == 204 || code == 304)
    }
  }

  function ReadMessage(s: string, framing: Framing): (r: Option<(Message, string)>)
    ensures r.Some? ==> |r.value.1| < |s|
  {
    match ReadLine(s)
    case None => None
    case Some((line, afterLine)) =>
      match ReadStatusLine(line)
      case None => None
      case Some((code, reason)) =>
        match ReadFields(afterLine)
        case None => None
        case Some((fields, rest)) =>
          if framing.Bodyless(code) then Some((Message(code, reason, fields, ""), rest)) else
          match FieldValue(fields, "Content-Length")
          case None => None
          case Some(v) =>
            match ReadDecimal(v)
            case None => None
            case Some(n) =>
              if n > |rest| then None else Some((Message(code, reason, fields, rest[..n]), rest[n..]))
  }

  /** A stream of messages with nothing left over. */
  function ReadMessages(s: string, framing: Framing): Option<seq<Message>>
    decreases |s|
  {
    if s == "" then Some([]) else
      match ReadMessage(s, framing)
      case None => None
      case Some((m, rest)) =>
        match ReadMessages(rest, framing)
        case None => None
        case Some(ms) => Some([m] + ms)
  }

  // ----------------------------------------------------------------------------------------------
  // Reading back what was printed
  // ----------------------------------------------------------------------------------------------

  lemma {:induction false} LineReadsBack(line: string, rest: string)
    requires IsText(line)
    ensures ReadLine(line + HTTP_EOL + rest) == Some((line, rest))
  {
    var s := line + HTTP_EOL + rest;
    if line == "" {
      assert s[2..] == rest;
    } else {
      assert s[1..] == line[1..] + HTTP_EOL + rest && s[0] == line[0];
      LineReadsBack(line[1..], rest);
      assert [line[0]] + line[1..] == line;
    }
  }

  lemma {:induction false} DecimalReadsBack(n: nat)
    ensures ReadDecimal(Decimal(n)) == Some(n) && IsText(Decimal(n))
    ensures forall i :: 0 <= i < |Decimal(n)| ==> IsDigit(Decimal(n)[i])
    ensures n >= 100 && n <= 999 ==> |Decimal(n)| == 3
  {
    if n >= 10 {
      DecimalReadsBack(n / 10);
      var s := Decimal(n);
      assert s[..|s| - 1] == Decimal(n / 10);
    }
  }

  lemma {:induction false} FieldReadsBack(key: string, value: string)
    requires ':' !in key
    ensures ReadField(key + ": " + value) == Some(Field(key, Trim(value)))
    decreases |key|
  {
    var line := key + ": " + value;
    if key == "" {
      assert line[1..] == " " + value && (" " + value)[1..] == value;
      TrimLeading(value);
    } else {
      assert line[1..] == key[1..] + ": " + value && line[0] == key[0];
      FieldReadsBack(key[1..], value);
      assert [key[0]] + key[1..] == key;
    }
  }

  lemma TrimLeading(value: string)
    ensures Trim(" " + value) == Trim(value)
  {
    assert (" " + value)[1..] == value;
  }

  function Printed(fields: seq<Field>): string {
    if fields == [] then "" else Header(fields[0].name, fields[0].value) + Printed(fields[1..])
  }

  function Trimmed(fields: seq<Field>): seq<Field> {
    if fields == [] then [] else [Field(fields[0].name, Trim(fields[0].value))] + Trimmed(fields[1..])
  }

  /** The name is non-empty and without colons, and nothing breaks the line. */
  ghost predicate PrintableField(f: Field) {
    f.name != "" && ':' !in f.name && IsText(f.name) && IsText(f.value)
  }

  ghost predicate Printable(fields: seq<Field>) {
    forall i :: 0 <= i < |fields| ==> PrintableField(fields[i])
  }

  lemma {:induction false} FieldsReadBack(fields: seq<Field>, rest: string)
    requires Printable(fields)
    ensures ReadFields(Printed(fields) + HTTP_EOL + rest) == Some((Trimmed(fields), rest))
    decreases |fields|
  {
    var s := Printed(fields) + HTTP_EOL + rest;
    if fields == [] {
      LineReadsBack("", rest);
      assert s == "" + HTTP_EOL + rest;
    } else {
      var f := fields[0];
      var line := f.name + ": " + f.value;
      var after := Printed(fields[1..]) + HTTP_EOL + rest;
      assert s == line + HTTP_EOL + after;
      LineReadsBack(line, after);
      FieldReadsBack(f.name, f.value);
      FieldsReadBack(fields[1..], rest);
    }
  }

  lemma StatusLineReadsBack(code: nat, message: string)
    requires 100 <= code <= 999 && 4 + |message| < STATUSLINE_LEN && IsText(message)
    ensures var line := "HTTP/1.1 " + Decimal(code) + " " + message;
      && StatusLine(code, message) == line + HTTP_EOL
      && IsText(line) && ReadStatusLine(line) == Some((code, message))
  {
    DecimalReadsBack(code);
    var d := Decimal(code);
    var line := "HTTP/1.1 " + d + " " + message;
    assert "HTTP/1.1 " + (d + " " + message) == line;
    assert line[9..12] == d && line[13..] == message && line[..9] == "HTTP/1.1 ";
  }

  function PageFields(server: string, page: Page, message: string): seq<Field> {
    [Field("Content-Type", "text/html"), Field("Content-Length", Decimal(|ErrorBody(message)|)),
     Field("Server", server), Field("Date", page.date)]
    + if page.last then [Field("Connection", "Close")] else []
  }

  /** What a reader should find in an error page. */
  function Expected(server: string, page: Page, message: string): Message {
    Message(page.code, message, Trimmed(PageFields(server, page, message)), ErrorBody(message))
  }

  lemma {:induction false} PrintedSnoc(fields: seq<Field>, f: Field)
    ensures Printed(fields + [f]) == Printed(fields) + Header(f.name, f.value)
  {
    if fields == [] {
      assert ([f])[1..] == [] && [] + [f] == [f];
    } else {
      assert (fields + [f])[1..] == fields[1..] + [f];
      PrintedSnoc(fields[1..], f);
    }
  }

  /** The page is its status line, its fields, an empty line and its body. */
  lemma PageLayout(server: string, page: Page, message: string)
    ensures ErrorPage(server, page, message)
         == StatusLine(page.code, message) + (Printed(PageFields(server, page, message)) + HTTP_EOL + ErrorBody(message))
  {
    hide Header, StatusLine, ErrorBody, Decimal, Printed;
    var length := Field("Content-Length", Decimal(|ErrorBody(message)|));
    var f1 := [Field("Content-Type", "text/html")];
    var f2 := f1 + [length];
    var f3 := f2 + [Field("Server", server)];
    var f4 := f3 + [Field("Date", page.date)];
    PrintedFirst(f1[0]);
    PrintedSnoc(f1, length);
    PrintedSnoc(f2, Field("Server", server));
    PrintedSnoc(f3, Field("Date", page.date));
    PrintedSnoc(f4, Field("Connection", "Close"));
    assert PageFields(server, page, message) == if page.last then f4 + [Field("Connection", "Close")] else f4;
  }

  lemma PrintedFirst(f: Field)
    ensures Printed([f]) == Header(f.name, f.value)
  {
    PrintedSnoc([], f);
    assert [] + [f] == [f];
  }

  lemma MessageReadsBack(server: string, page: Page, message: string, rest: string, framing: Framing)
    requires MessageOf(page.code) == Some(message) && IsText(server) && IsText(page.date)
    ensures framing.Bodyless(page.code) ==>
      ReadMessage(ErrorPage(server, page, message) + rest, framing)
      == Some((Expected(server, page, message).(body := ""), ErrorBody(message) + rest))
    ensures !framing.Bodyless(page.code) ==>
      ReadMessage(ErrorPage(server, page, message) + rest, framing) == Some((Expected(server, page, message), rest))
  {
    hide ErrorPage, StatusLine, ErrorBody, Decimal, Printed, Trimmed, PageFields, ReadLine, ReadFields, ReadStatusLine, MessageOf, ReadDecimal;
    MessageIsFound(page.code, message);
    PageLayout(server, page, message);
    StatusLineReadsBack(page.code, message);
    var line := "HTTP/1.1 " + Decimal(page.code) + " " + message;
    var body := ErrorBody(message);
    var fields := PageFields(server, page, message);
    var after := Printed(fields) + HTTP_EOL + (body + rest);
    assert ErrorPage(server, page, message) + rest == line + HTTP_EOL + after;
    LineReadsBack(line, after);
    PageFieldFacts(server, page, message);
    FieldsReadBack(fields, body + rest);
    DecimalReadsBack(|body|);
    assert (body + rest)[..|body|] == body && (body + rest)[|body|..] == rest;
  }

  lemma MessageIsFound(code: nat, message: string)
    requires MessageOf(code) == Some(message)
    ensures 100 <= code <= 999 && 4 + |message| < STATUSLINE_LEN && IsText(message)
  {
    MessageFacts(STATUSES, code);
  }

  lemma {:induction false} TrimmedAt(fields: seq<Field>)
    ensures |Trimmed(fields)| == |fields|
    ensures forall i :: 0 <= i < |fields| ==> Trimmed(fields)[i] == Field(fields[i].name, Trim(fields[i].value))
  {
    if fields != [] {
      TrimmedAt(fields[1..]);
    }
  }

  lemma {:induction false} FieldValueAt(fields: seq<Field>, name: string, k: nat)
    requires k <= |fields| && forall j :: 0 <= j < k ==> !SameIgnoringCase(fields[j].name, name)
    requires k < |fields| ==> SameIgnoringCase(fields[k].name, name)
    ensures FieldValue(fields, name) == if k < |fields| then Some(fields[k].value) else None
    decreases k
  {
    if k > 0 {
      FieldValueAt(fields[1..], name, k - 1);
    }
  }

  /**
    The page's fields are printable, its length field is the length of its body, and it has a Connection
    field, with value Close, exactly when it is marked last (section 6.1).
   */
  lemma PageFieldFacts(server: string, page: Page, message: string)
    requires IsText(server) && IsText(page.date)
    ensures var fields := PageFields(server, page, message);
      && Printable(fields)
      && FieldValue(Trimmed(fields), "Content-Length") == Some(Decimal(|ErrorBody(message)|))
      && FieldValue(Trimmed(fields), "Content-Type") == Some("text/html")
      && FieldValue(Trimmed(fields), "Server") == Some(Trim(server)) && FieldValue(Trimmed(fields), "Date") == Some(Trim(page.date))
      && (FieldValue(Trimmed(fields), "Connection") == if page.last then Some("Close") else None)
  {
    hide ErrorBody, Decimal, Trimmed, FieldValue, IsText, Trim, SameIgnoringCase;
    PageIsPrintable(server, page, message);
    DecimalIsTrim(|ErrorBody(message)|);
    var fields := PageFields(server, page, message);
    TrimmedAt(fields);
    NamesDiffer();
    FieldValueAt(Trimmed(fields), "Content-Length", 1);
    FieldValueAt(Trimmed(fields), "Connection", 4);
    FieldValueAt(Trimmed(fields), "Content-Type", 0);
    FieldValueAt(Trimmed(fields), "Server", 2);
    FieldValueAt(Trimmed(fields), "Date", 3);
    CloseIsTrim();
    HtmlIsTrim();
  }

  lemma HtmlIsTrim()
    ensures Trim("text/html") == "text/html"
  {
  }

  lemma PageIsPrintable(server: string, page: Page, message: string)
    requires IsText(server) && IsText(page.date)
    ensures Printable(PageFields(server, page, message))
  {
    hide ErrorBody, Decimal, PrintableField;
    FixedFields();
    DecimalReadsBack(|ErrorBody(message)|);
    NamedFields(Decimal(|ErrorBody(message)|), server, page.date);
  }

  lemma FixedFields()
    ensures PrintableField(Field("Content-Type", "text/html")) && PrintableField(Field("Connection", "Close"))
  {
    TypeField();
    CloseField();
  }

  lemma TypeField()
    ensures PrintableField(Field("Content-Type", "text/html"))
  {
  }

  lemma CloseField()
    ensures PrintableField(Field("Connection", "Close"))
  {
  }

  lemma NamedFields(length: string, server: string, date: string)
    requires IsText(length) && IsText(server) && IsText(date)
    ensures PrintableField(Field("Content-Length", length))
    ensures PrintableField(Field("Server", server)) && PrintableField(Field("Date", date))
  {
  }

  lemma NamesDiffer()
    ensures !SameIgnoringCase("Content-Type", "Content-Length")
    ensures !SameIgnoringCase("Content-Type", "Connection") && !SameIgnoringCase("Content-Length", "Connection")
    ensures !SameIgnoringCase("Server", "Connection") && !SameIgnoringCase("Date", "Connection")
    ensures !SameIgnoringCase("Content-Type", "Server") && !SameIgnoringCase("Content-Length", "Server")
    ensures !SameIgnoringCase("Content-Type", "Date") && !SameIgnoringCase("Content-Length", "Date") && !SameIgnoringCase("Server", "Date")
    ensures SameIgnoringCase("Content-Length", "Content-Length") && SameIgnoringCase("Connection", "Connection")
    ensures SameIgnoringCase("Content-Type", "Content-Type") && SameIgnoringCase("Server", "Server") && SameIgnoringCase("Date", "Date")
  {
    assert |"Content-Type"| == 12 && |"Content-Length"| == 14 && |"Connection"| == 10 && |"Server"| == 6 && |"Date"| == 4;
  }

  lemma DecimalIsTrim(n: nat)
    ensures Trim(Decimal(n)) == Decimal(n)
  {
    DecimalReadsBack(n);
    assert IsDigit(Decimal(n)[0]) && IsDigit(Decimal(n)[|Decimal(n)| - 1]);
  }

  lemma CloseIsTrim()
    ensures Trim("Close") == "Close"
  {
  }

  /** The text of a page without its tags, from inside or outside of a tag on. */
  function Shown(html: string, inside: bool): string {
    if html == "" then ""
    else if inside then Shown(html[1..], html[0] != '>')
    else if html[0] == '<' then Shown(html[1..], true)
    else [html[0]] + Shown(html[1..], false)
  }

  predicate EndsInside(html: string, inside: bool) {
    if html == "" then inside
    else if inside then EndsInside(html[1..], html[0] != '>')
    else EndsInside(html[1..], html[0] == '<')
  }

  lemma {:induction false} ShownSplits(a: string, b: string, inside: bool)
    ensures Shown(a + b, inside) == Shown(a, inside) + Shown(b, EndsInside(a, inside))
    ensures EndsInside(a + b, inside) == EndsInside(b, EndsInside(a, inside))
    decreases |a|
  {
    if a == "" {
      assert a + b == b;
    } else {
      assert (a + b)[1..] == a[1..] + b;
      ShownSplits(a[1..], b, if inside then a[0] != '>' else a[0] == '<');
    }
  }

  lemma {:induction false} PlainIsShown(text: string)
    requires '<' !in text
    ensures Shown(text, false) == text && !EndsInside(text, false)
  {
    if text != "" {
      assert text[0] in text;
      PlainIsShown(text[1..]);
      assert [text[0]] + text[1..] == text;
    }
  }

  lemma {:induction false} TagEnds(name: string)
    requires '>' !in name
    ensures Shown(name + ">", true) == "" && !EndsInside(name + ">", true)
  {
    if name == "" {
      assert name + ">" == ">";
    } else {
      assert name[0] in name && (name + ">")[1..] == name[1..] + ">";
      TagEnds(name[1..]);
    }
  }

  /** Nothing but whole tags. */
  ghost predicate Hidden(html: string) {
    Shown(html, false) == "" && !EndsInside(html, false)
  }

  lemma TagIsHidden(name: string)
    requires '>' !in name
    ensures Hidden("<" + name + ">")
  {
    TagEnds(name);
    assert ("<" + name + ">")[1..] == name + ">";
  }

  lemma HiddenJoin(a: string, b: string)
    requires Hidden(a) && Hidden(b)
    ensures Hidden(a + b)
  {
    ShownSplits(a, b, false);
  }

  lemma HeadIsHidden()
    ensures Hidden("<!DOCTYPE html><html><head><title>")
  {
    hide Hidden;
    TagIsHidden("!DOCTYPE html"); assert "<" + "!DOCTYPE html" + ">" == "<!DOCTYPE html>";
    TagIsHidden("html"); assert "<" + "html" + ">" == "<html>";
    TagIsHidden("head"); assert "<" + "head" + ">" == "<head>";
    TagIsHidden("title"); assert "<" + "title" + ">" == "<title>";
    HiddenJoin("<!DOCTYPE html>", "<html>");
    assert "<!DOCTYPE html>" + "<html>" == "<!DOCTYPE html><html>";
    HiddenJoin("<head>", "<title>");
    assert "<head>" + "<title>" == "<head><title>";
    HiddenJoin("<!DOCTYPE html><html>", "<head><title>");
    assert "<!DOCTYPE html><html>" + "<head><title>" == "<!DOCTYPE html><html><head><title>";
  }

  lemma MiddleIsHidden()
    ensures Hidden("</title></head><body><h1>")
  {
    hide Hidden;
    TagIsHidden("/title"); assert "<" + "/title" + ">" == "</title>";
    TagIsHidden("/head"); assert "<" + "/head" + ">" == "</head>";
    TagIsHidden("body"); assert "<" + "body" + ">" == "<body>";
    TagIsHidden("h1"); assert "<" + "h1" + ">" == "<h1>";
    HiddenJoin("</title>", "</head>");
    assert "</title>" + "</head>" == "</title></head>";
    HiddenJoin("<body>", "<h1>");
    assert "<body>" + "<h1>" == "<body><h1>";
    HiddenJoin("</title></head>", "<body><h1>");
    assert "</title></head>" + "<body><h1>" == "</title></head><body><h1>";
  }

  lemma EndIsHidden()
    ensures Hidden("</h1></body></html>")
  {
    hide Hidden;
    TagIsHidden("/h1"); assert "<" + "/h1" + ">" == "</h1>";
    TagIsHidden("/body"); assert "<" + "/body" + ">" == "</body>";
    TagIsHidden("/html"); assert "<" + "/html" + ">" == "</html>";
    HiddenJoin("</h1>", "</body>");
    assert "</h1>" + "</body>" == "</h1></body>";
    HiddenJoin("</h1></body>", "</html>");
    assert "</h1></body>" + "</html>" == "</h1></body></html>";
  }

  lemma ShownBehind(tags: string, text: string, rest: string)
    requires Hidden(tags) && '<' !in text
    ensures Shown(tags + (text + rest), false) == text + Shown(rest, false)
  {
    ShownSplits(tags, text + rest, false);
    PlainIsShown(text);
    ShownSplits(text, rest, false);
  }

  /** What the page shows is the status message, as its title and as its heading. */
  lemma BodyShowsMessage(message: string)
    requires '<' !in message
    ensures Shown(ErrorBody(message), false) == message + message
  {
    hide Shown, EndsInside;
    HeadIsHidden();
    MiddleIsHidden();
    EndIsHidden();
    var head, middle, end := "<!DOCTYPE html><html><head><title>", "</title></head><body><h1>", "</h1></body></html>";
    ShownBehind(head, message, middle + (message + end));
    ShownBehind(middle, message, end);
    assert ErrorBody(message) == head + (message + (middle + (message + end)));
    assert message + (message + "") == message + message;
  }

  // ----------------------------------------------------------------------------------------------
  // Whole streams of error pages
  // ----------------------------------------------------------------------------------------------

  /** Every page has a code of the table and a date without line breaks. */
  ghost predicate Known(pages: seq<Page>) {
    forall i :: 0 <= i < |pages| ==> MessageOf(pages[i].code).Some? && IsText(pages[i].date)
  }

  function Stream(server: string, pages: seq<Page>): string
    requires forall i :: 0 <= i < |pages| ==> MessageOf(pages[i].code).Some?
  {
    if pages == [] then "" else ErrorPage(server, pages[0], MessageOf(pages[0].code).value) + Stream(server, pages[1..])
  }

  function ExpectedStream(server: string, pages: seq<Page>): seq<Message>
    requires forall i :: 0 <= i < |pages| ==> MessageOf(pages[i].code).Some?
  {
    if pages == [] then [] else [Expected(server, pages[0], MessageOf(pages[0].code).value)] + ExpectedStream(server, pages[1..])
  }

  ghost predicate SomeBodyless(pages: seq<Page>, framing: Framing) {
    exists i :: 0 <= i < |pages| && framing.Bodyless(pages[i].code)
  }

  /**
    Error pages written one after another read back as exactly those pages if and only if none of their codes
    makes the reader ignore the body; otherwise the stream is not a stream of messages at all.
   */
  lemma {:induction false} StreamReadsBack(server: string, pages: seq<Page>, framing: Framing)
    requires Known(pages) && IsText(server)
    ensures !SomeBodyless(pages, framing) ==> ReadMessages(Stream(server, pages), framing) == Some(ExpectedStream(server, pages))
    ensures SomeBodyless(pages, framing) ==> ReadMessages(Stream(server, pages), framing) == None
    decreases |pages|
  {
    hide ErrorPage, MessageOf, ReadMessage, Expected;
    if pages != [] {
      var page, rest := pages[0], Stream(server, pages[1..]);
      var message := MessageOf(page.code).value;
      MessageReadsBack(server, page, message, rest, framing);
      PageIsNotEmpty(server, page, message);
      if framing.Bodyless(page.code) {
        BodyIsNoMessage(message, rest, framing);
      } else {
        StreamReadsBack(server, pages[1..], framing);
        assert SomeBodyless(pages, framing) <==> SomeBodyless(pages[1..], framing) by {
          if i :| 0 <= i < |pages| && framing.Bodyless(pages[i].code) {
            assert pages[1..][i - 1] == pages[i];
          }
        }
      }
    }
  }

  lemma {:induction false} MessageInPart(before: seq<StatusRow>, rows: seq<StatusRow>, code: nat)
    requires MessageIn(before, code) == None
    ensures MessageIn(before + rows, code) == MessageIn(rows, code)
  {
    if before == [] {
      assert before + rows == rows;
    } else {
      assert (before + rows)[1..] == before[1..] + rows;
      MessageInPart(before[1..], rows, code);
    }
  }

  lemma {:induction false} MessageInFront(rows: seq<StatusRow>, after: seq<StatusRow>, code: nat)
    requires MessageIn(rows, code).Some?
    ensures MessageIn(rows + after, code) == MessageIn(rows, code)
  {
    if rows != [] && rows[0].code != code {
      assert (rows + after)[1..] == rows[1..] + after;
      MessageInFront(rows[1..], after, code);
    }
  }

  lemma NoContentIsKnown()
    ensures MessageOf(204) == Some("No Content")
  {
    var rest := MORE_SUCCESSFUL + REDIRECTION + MORE_REDIRECTION + ALL_CLIENT_ERRORS + ALL_SERVER_ERRORS;
    NotInformational();
    NoContentIsSuccessful();
    MessageInFront(SUCCESSFUL, rest, 204);
    MessageInPart(INFORMATIONAL, SUCCESSFUL + rest, 204);
    assert STATUSES == INFORMATIONAL + (SUCCESSFUL + rest);
  }

  lemma NotInformational()
    ensures MessageIn(INFORMATIONAL, 204) == None
  {
    MessageInCodes(INFORMATIONAL, 204, |INFORMATIONAL|);
  }

  lemma NoContentIsSuccessful()
    ensures MessageIn(SUCCESSFUL, 204) == Some("No Content")
  {
    MessageInCodes(SUCCESSFUL, 204, 4);
  }

  lemma {:induction false} MessageInCodes(rows: seq<StatusRow>, code: nat, k: nat)
    requires k <= |rows| && forall j :: 0 <= j < k ==> rows[j].code != code
    requires k < |rows| ==> rows[k].code == code
    ensures MessageIn(rows, code) == if k < |rows| then Some(rows[k].message) else None
    decreases k
  {
    if k > 0 {
      MessageInCodes(rows[1..], code, k - 1);
    }
  }

  /** The smallest stream that does not read back: the error page of code 204, read with section 3.3.3. */
  lemma NoContentDoesNotReadBack(server: string, date: string, last: bool)
    requires IsText(server) && IsText(date)
    ensures MessageOf(204).Some? && ReadMessages(Stream(server, [Page(204, date, last)]), ByStatusThenLength) == None
  {
    hide MessageOf, Stream, ReadMessages;
    NoContentIsKnown();
    var pages := [Page(204, date, last)];
    assert ByStatusThenLength.Bodyless(pages[0].code);
    StreamReadsBack(server, pages, ByStatusThenLength);
  }

  lemma PageIsNotEmpty(server: string, page: Page, message: string)
    ensures ErrorPage(server, page, message) != ""
  {
    hide Header, Decimal, ErrorBody, HeadersEnd, Truncated;
    assert |StatusLine(page.code, message)| > 0;
  }

  /** A body left over in the stream does not start a message. */
  lemma BodyIsNoMessage(message: string, rest: string, framing: Framing)
    ensures ReadMessages(ErrorBody(message) + rest, framing) == None
  {
    var s := ErrorBody(message) + rest;
    assert s[0] == '<';
    LineStart(s);
    assert ReadMessage(s, framing) == None;
  }

  lemma LineStart(s: string)
    requires s != "" && s[0] != CR
    ensures ReadLine(s).Some? ==> ReadLine(s).value.0 != "" && ReadLine(s).value.0[0] == s[0]
  {
  }

  /** Pages measured by their Content-Length always read back: two streams of equal text are the same pages. */
  lemma StreamsAreUnique(server: string, pages: seq<Page>, pages': seq<Page>)
    requires Known(pages) && Known(pages') && IsText(server)
    requires Stream(server, pages) == Stream(server, pages')
    ensures ExpectedStream(server, pages) == ExpectedStream(server, pages')
  {
    StreamReadsBack(server, pages, ByLength);
    StreamReadsBack(server, pages', ByLength);
  }

  // ----------------------------------------------------------------------------------------------
  // The response object
  // ----------------------------------------------------------------------------------------------

  /** The scan of the status table. */
  method StatusMessageByCode(code: nat) returns (message: Option<string>)
    ensures message == MessageOf(code)
  {
    var i := 0;
    while i < |STATUSES|
      invariant i <= |STATUSES| && MessageIn(STATUSES[i..], code) == MessageOf(code)
    {
      assert STATUSES[i..][1..] == STATUSES[i + 1..];
      if STATUSES[i].code == code {
        return Some(STATUSES[i].message);
      }
      i := i + 1;
    }
    return None;
  }

  class HTTPResponse {
    var buffer: array<char>
    var bufferLength: nat
    const serverName: string
    var isLast: bool
    /** All bytes ever appended, and all bytes ever read. */
    ghost var appended: string
    ghost var taken: string

    ghost predicate Valid()
      reads this, buffer
    {
      bufferLength == buffer.Length && appended == taken + Contents()
    }

    ghost function Contents(): string
      reads this, buffer
    {
      buffer[..]
    }

    constructor (serverName: string)
      ensures Valid() && Contents() == "" && !isLast && this.serverName == serverName && fresh(buffer)
      ensures appended == "" && taken == ""
    {
      buffer, bufferLength := new char[0], 0;
      this.serverName, isLast := serverName, false;
      appended, taken := "", "";
    }

    method SetLast(last: bool)
      modifies `isLast
      ensures isLast == last
    {
      isLast := last;
    }

    method AppendData(data: string) returns (length: nat)
      requires Valid() && |data| > 0
      modifies `buffer, `bufferLength, `appended
      ensures Valid() && fresh(buffer)
      ensures length == |data| && Contents() == old(Contents()) + data && appended == old(appended) + data
    {
      ghost var before := Contents();
      buffer := Buffers.Resize(buffer, bufferLength + |data|);
      forall i | 0 <= i < |data| {
        buffer[bufferLength + i] := data[i];
      }
      bufferLength := bufferLength + |data|;
      appended := appended + data;
      length := |data|;
      assert Contents() == before + data;
      assert taken + (before + data) == (taken + before) + data;
    }

    /** Moves at most `length` bytes from the front of the buffer into `data`, and the rest to the front. */
    method ReadData(data: array<char>, length: nat) returns (available: nat)
      requires Valid() && 0 < length <= data.Length && data != buffer
      modifies this`buffer, this`bufferLength, this`taken, buffer, data
      ensures Valid()
      ensures available <= data.Length && data[..available] == Front(old(Contents()), length)
      ensures forall i :: available <= i < data.Length ==> data[i] == old(data[i])
      ensures Contents() == old(Contents())[available..]
      ensures taken == old(taken) + data[..available] && fresh(buffer)
    {
      ghost var before := Contents();
      available := if bufferLength < length then bufferLength else length;
      forall i | 0 <= i < available {
        data[i] := buffer[i];
      }
      bufferLength := bufferLength - available;
      taken := taken + data[..available];
      if bufferLength == 0 {
        buffer := new char[0];
      } else {
        Buffers.MoveDown(buffer, available, bufferLength);
        buffer := Buffers.Resize(buffer, bufferLength);
      }
      assert Contents() == before[available..];
      assert data[..available] == before[..available];
      TakenFront(old(taken), before, available);
    }

    method WriteStatusLine(line: string) returns (length: nat)
      requires Valid()
      modifies `buffer, `bufferLength, `appended
      ensures Valid() && fresh(buffer)
      ensures Contents() == old(Contents()) + ("HTTP/1.1 " + line + HTTP_EOL) && length == |Contents()| - |old(Contents())|
    {
      length := AppendData("HTTP/1.1 " + line + HTTP_EOL);
    }

    /** Answers None exactly for an unknown code, as the source's -1. */
    method WriteStatusLineByCode(code: nat) returns (length: Option<nat>)
      requires Valid()
      modifies `buffer, `bufferLength, `appended
      ensures Valid() && (buffer == old(buffer) || fresh(buffer))
      ensures length.Some? <==> MessageOf(code).Some?
      ensures length == None ==> Contents() == old(Contents())
      ensures length.Some? ==>
        Contents() == old(Contents()) + StatusLine(code, MessageOf(code).value) && length.value == |Contents()| - |old(Contents())|
    {
      hide MessageOf;
      var message := StatusMessageByCode(code);
      if message == None {
        return None;
      }
      var n := WriteStatusLine(Truncated(Decimal(code) + " " + message.value, STATUSLINE_LEN));
      length := Some(n);
    }

    method WriteHeader(key: string, value: string) returns (length: nat)
      requires Valid()
      modifies `buffer, `bufferLength, `appended
      ensures Valid() && fresh(buffer)
      ensures Contents() == old(Contents()) + Header(key, value) && length == |Contents()| - |old(Contents())|
    {
      length := AppendData(key + ": " + value + HTTP_EOL);
    }

    /** `clock` is the formatted date, or None when time or strftime fails; then the source gives up with -1. */
    method EndHeaders(clock: Option<string>) returns (total: Option<nat>)
      requires Valid()
      modifies `buffer, `bufferLength, `appended
      ensures Valid() && (buffer == old(buffer) || fresh(buffer))
      ensures total.Some? <==> clock.Some?
      ensures clock == None ==> Contents() == old(Contents()) + Header("Server", serverName)
      ensures clock.Some? ==>
        Contents() == old(Contents()) + HeadersEnd(serverName, clock.value, isLast) && total.value == |Contents()| - |old(Contents())|
    {
      hide Header;
      ghost var before := Contents();
      var sum := WriteHeader("Server", serverName);
      if clock == None {
        return None;
      }
      var n := WriteHeader("Date", clock.value);
      sum := sum + n;
      if isLast {
        n := WriteHeader("Connection", "Close");
        sum := sum + n;
      }
      n := AppendData(HTTP_EOL);
      sum := sum + n;
      assert Contents() == before + HeadersEnd(serverName, clock.value, isLast);
      total := Some(sum);
    }

    /** None for an unknown code, without touching the buffer, or when the date cannot be had. */
    method WriteErrorByCode(code: nat, clock: Option<string>) returns (total: Option<nat>)
      requires Valid()
      modifies `buffer, `bufferLength, `appended
      ensures Valid() && (buffer == old(buffer) || fresh(buffer))
      ensures total.Some? <==> MessageOf(code).Some? && clock.Some?
      ensures MessageOf(code) == None ==> Contents() == old(Contents())
      ensures total.Some? ==>
        && Contents() == old(Contents()) + ErrorPage(serverName, Page(code, clock.value, isLast), MessageOf(code).value)
        && total.value == |Contents()| - |old(Contents())|
    {
      hide Header, StatusLine, HeadersEnd, ErrorBody, Decimal, MessageOf, ErrorPage;
      ghost var before := Contents();
      var message := StatusMessageByCode(code);
      if message == None {
        return None;
      }
      var body := ErrorBody(message.value);
      var line := WriteStatusLineByCode(code);
      var sum := line.value;
      var n := WriteHeader("Content-Type", "text/html");
      sum := sum + n;
      n := WriteHeader("Content-Length", Decimal(|body|));
      sum := sum + n;
      var end := EndHeaders(clock);
      if end == None {
        return None;
      }
      sum := sum + end.value;
      BodyIsNotEmpty(message.value);
      n := AppendData(body);
      sum := sum + n;
      AppendedPage(before, serverName, Page(code, clock.value, isLast), message.value);
      total := Some(sum);
    }
  }

  /** What is taken from the front goes behind what was taken before. */
  lemma TakenFront(taken: string, before: string, n: nat)
    requires n <= |before|
    ensures taken + before == (taken + before[..n]) + before[n..]
  {
    assert before == before[..n] + before[n..];
  }

  /** Appending the page's pieces one by one appends the page. */
  lemma AppendedPage(before: string, server: string, page: Page, message: string)
    ensures before + StatusLine(page.code, message) + Header("Content-Type", "text/html")
            + Header("Content-Length", Decimal(|ErrorBody(message)|)) + HeadersEnd(server, page.date, page.last) + ErrorBody(message)
         == before + ErrorPage(server, page, message)
  {
    hide StatusLine, Header, Decimal, ErrorBody, HeadersEnd;
  }

  lemma BodyIsNotEmpty(message: string)
    ensures |ErrorBody(message)| > 0
  {
  }

  /** Error pages written one after the other, each marked last or not, are the stream of those pages. */
  method WriteErrorPages(response: HTTPResponse, pages: seq<Page>) returns (total: nat)
    requires response.Valid() && Known(pages)
    modifies response, response.buffer
    ensures response.Valid()
    ensures response.Contents() == old(response.Contents()) + Stream(response.serverName, pages)
    ensures total == |response.Contents()| - |old(response.Contents())|
  {
    hide ErrorPage, MessageOf, IsText, Stream;
    ghost var before := response.Contents();
    total := 0;
    var i := 0;
    StreamNone(response.serverName, pages);
    while i < |pages|
      invariant i <= |pages| && response.Valid() && (response.buffer == old(response.buffer) || fresh(response.buffer))
      invariant response.Contents() == before + Stream(response.serverName, pages[..i])
      invariant total == |response.Contents()| - |before|
    {
      response.SetLast(pages[i].last);
      StreamOneMore(response.serverName, pages, i);
      var n := response.WriteErrorByCode(pages[i].code, Some(pages[i].date));
      total := total + n.value;
      i := i + 1;
    }
    assert pages[..i] == pages;
  }

  lemma StreamNone(server: string, pages: seq<Page>)
    requires Known(pages)
    ensures Stream(server, pages[..0]) == ""
  {
  }

  lemma StreamOneMore(server: string, pages: seq<Page>, i: nat)
    requires Known(pages) && i < |pages|
    ensures Stream(server, pages[..i + 1]) == Stream(server, pages[..i]) + ErrorPage(server, pages[i], MessageOf(pages[i].code).value)
  {
    hide ErrorPage, MessageOf;
    assert pages[..i + 1] == pages[..i] + [pages[i]];
    StreamSnoc(server, pages[..i], pages[i]);
  }

  lemma {:induction false} StreamSnoc(server: string, pages: seq<Page>, page: Page)
    requires (forall i :: 0 <= i < |pages| ==> MessageOf(pages[i].code).Some?) && MessageOf(page.code).Some?
    ensures Stream(server, pages + [page]) == Stream(server, pages) + ErrorPage(server, page, MessageOf(page.code).value)
  {
    hide ErrorPage, MessageOf;
    if pages == [] {
      assert [] + [page] == [page] && [page][1..] == [];
    } else {
      assert (pages + [page])[1..] == pages[1..] + [page];
      StreamSnoc(server, pages[1..], page);
    }
  }
}
