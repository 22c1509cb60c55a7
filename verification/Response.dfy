/** Response serialisation, and what a reader gets back from it. */
module Response {
  import opened Bytes
  import opened Decimal

  datatype Field = Field(name: string, value: string)

  // ---------------------------------------------------------------- the status line

  predicate Known(code: int) {
    code in {200, 201, 202, 204, 300, 301, 302, 304, 400, 401, 403, 404, 500, 501, 502, 503}
  }

  /** Any other value falls into the default branch of the switch. */
  function Effective(code: int): int {
    if Known(code) then code else 500
  }

  function Reason(code: int): (reason: string)
    ensures '\n' !in reason
  {
    match code
    case 200 => "OK"
    case 201 => "Created"
    case 202 => "Accepted"
    case 204 => "No Content"
    case 300 => "Multiple Choices"
    case 301 => "Moved Permanently"
    case 302 => "Moved Temporarily"
    case 304 => "Not Modified"
    case 400 => "Bad Request"
    case 401 => "Unauthorized"
    case 403 => "Forbidden"
    case 404 => "Not Found"
    case 500 => "Internal Server Error"
    case 501 => "Not Implemented"
    case 502 => "Bad Gateway"
    case 503 => "Service Unavailable"
    case _ => "Internal Server Error"
  }

  // ---------------------------------------------------------------- the stock pages

  function Page(title: string, digits: string, phrase: string): string {
    "<html><head><title>" + title + "</title></head><body><h1>" + digits + " " + phrase + "</h1></body></html>"
  }

  /** The content of a stock reply. */
  function StockPage(code: int): (page: string)
    ensures page == "" <==> code == 200
  {
    match code
    case 200 => ""
    case 201 => Page("Created", "201", "Created")
    case 202 => Page("Accepted", "202", "Accepted")
    case 204 => Page("No Content", "204", "Content")
    case 300 => Page("Multiple Choices", "300", "Multiple Choices")
    case 301 => Page("Moved Permanently", "301", "Moved Permanently")
    case 302 => Page("Moved Temporarily", "302", "Moved Temporarily")
    case 304 => Page("Not Modified", "304", "Not Modified")
    case 400 => Page("Bad Request", "400", "Bad Request")
    case 401 => Page("Unauthorized", "401", "Unauthorized")
    case 403 => Page("Forbidden", "403", "Forbidden")
    case 404 => Page("Not Found", "404", "Not Found")
    case 500 => Page("Internal Server Error", "500", "Internal Server Error")
    case 501 => Page("Not Implemented", "501", "Not Implemented")
    case 502 => Page("Bad Gateway", "502", "Bad Gateway")
    case 503 => Page("Service Unavailable", "503", "Service Unavailable")
    case _ => Page("Internal Server Error", "500", "Internal Server Error")
  }

  const VERSION := "HTTP/1.0"
  const CRLF := "\r\n"
  const SEPARATOR := ": "
  const DATE := "Date"
  const CONTENT_LENGTH := "Content-Length"

  function StatusLineOf(code: nat, reason: string): string {
    VERSION + " " + ToString(code) + " " + reason + CRLF
  }

  function StatusLine(code: int): string {
    StatusLineOf(Effective(code), Reason(code))
  }

  // ---------------------------------------------------------------- the bytes of a response

  function FieldLine(f: Field): string {
    f.name + SEPARATOR + f.value + CRLF
  }

  function FieldBlock(fields: seq<Field>): string {
    if fields == [] then "" else FieldLine(fields[0]) + FieldBlock(fields[1..])
  }

  /** Everything the server hands to the socket for one response. */
  function Wire(code: int, fields: seq<Field>, content: string): string {
    StatusLine(code) + (FieldBlock(fields) + (CRLF + content))
  }

  /** The order in which an iteration over the hash map visits its names. */
  ghost predicate IsOrderOf(order: seq<string>, headers: map<string, string>) {
    && (forall k :: 0 <= k < |order| ==> order[k] in headers)
    && (forall name :: name in headers ==> name in order)
    && (forall j, k :: 0 <= j < k < |order| ==> order[j] != order[k])
  }

  function FieldsOf(headers: map<string, string>, order: seq<string>): (r: seq<Field>)
    requires forall k :: 0 <= k < |order| ==> order[k] in headers
    ensures |r| == |order|
    ensures forall k :: 0 <= k < |order| ==> r[k] == Field(order[k], headers[order[k]])
  {
    seq(|order|, k requires 0 <= k < |order| => Field(order[k], headers[order[k]]))
  }

  /** The header map after `to_buffers` has put the date and the length into it. */
  function Stamped(headers: map<string, string>, now: string, content: string): map<string, string> {
    headers[DATE := now][CONTENT_LENGTH := ToString(|content|)]
  }

  function StockHeaders(code: int): map<string, string> {
    map[CONTENT_LENGTH := ToString(|StockPage(code)|)]
  }

  /** A status line, spelled out. */
  function StatusText(digits: string, phrase: string): string {
    "HTTP/1.0 " + digits + " " + phrase + "\r\n"
  }

  lemma Codes2xx()
    ensures ToString(200) == "200" && ToString(201) == "201" && ToString(202) == "202" && ToString(204) == "204"
  {
    ToStringStep(2, 0);
    ToStringStep(20, 0);
    ToStringStep(20, 1);
    ToStringStep(20, 2);
    ToStringStep(20, 4);
  }

  lemma Codes3xx()
    ensures ToString(300) == "300" && ToString(301) == "301" && ToString(302) == "302" && ToString(304) == "304"
  {
    ToStringStep(3, 0);
    ToStringStep(30, 0);
    ToStringStep(30, 1);
    ToStringStep(30, 2);
    ToStringStep(30, 4);
  }

  lemma Codes4xx()
    ensures ToString(400) == "400" && ToString(401) == "401" && ToString(403) == "403" && ToString(404) == "404"
  {
    ToStringStep(4, 0);
    ToStringStep(40, 0);
    ToStringStep(40, 1);
    ToStringStep(40, 3);
    ToStringStep(40, 4);
  }

  lemma Codes5xx()
    ensures ToString(500) == "500" && ToString(501) == "501" && ToString(502) == "502" && ToString(503) == "503"
  {
    ToStringStep(5, 0);
    ToStringStep(50, 0);
    ToStringStep(50, 1);
    ToStringStep(50, 2);
    ToStringStep(50, 3);
  }

  lemma CodesInDecimal()
    ensures ToString(200) == "200" && ToString(201) == "201" && ToString(202) == "202" && ToString(204) == "204"
    ensures ToString(300) == "300" && ToString(301) == "301" && ToString(302) == "302" && ToString(304) == "304"
    ensures ToString(400) == "400" && ToString(401) == "401" && ToString(403) == "403" && ToString(404) == "404"
    ensures ToString(500) == "500" && ToString(501) == "501" && ToString(502) == "502" && ToString(503) == "503"
  {
    Codes2xx();
    Codes3xx();
    Codes4xx();
    Codes5xx();
  }

  /** The status line of every code, letter by letter. */
  lemma StatusLineText(code: int)
    ensures StatusLine(code) ==
      match code
      case 200 => StatusText("200", "OK")
      case 201 => StatusText("201", "Created")
      case 202 => StatusText("202", "Accepted")
      case 204 => StatusText("204", "No Content")
      case 300 => StatusText("300", "Multiple Choices")
      case 301 => StatusText("301", "Moved Permanently")
      case 302 => StatusText("302", "Moved Temporarily")
      case 304 => StatusText("304", "Not Modified")
      case 400 => StatusText("400", "Bad Request")
      case 401 => StatusText("401", "Unauthorized")
      case 403 => StatusText("403", "Forbidden")
      case 404 => StatusText("404", "Not Found")
      case 500 => StatusText("500", "Internal Server Error")
      case 501 => StatusText("501", "Not Implemented")
      case 502 => StatusText("502", "Bad Gateway")
      case 503 => StatusText("503", "Service Unavailable")
      case _ => StatusText("500", "Internal Server Error")
  {
    CodesInDecimal();
    assert VERSION + " " == "HTTP/1.0 ";
  }

  /** The page of a stock reply repeats the code and the phrase of its status line, in its title and in its
      heading; only the heading for 204 leaves out a word, and 200 has no page. */
  lemma StockPageRepeatsStatus(code: int)
    requires code != 200
    ensures
      var digits, phrase := ToString(Effective(code)), Reason(code);
      && StatusLine(code) == StatusText(digits, phrase)
      && StockPage(code) == Page(phrase, digits, if code == 204 then "Content" else phrase)
  {
    CodesInDecimal();
    assert VERSION + " " == "HTTP/1.0 ";
  }

  class Response {
    var status: int
    var content: string
    var headers: map<string, string>

    /** An empty response with the default headers. */
    constructor ()
      ensures status == 200 && content == ""
      ensures headers == map["Content-Type" := "text/json", "Server" := "tonghao&asio", "Connection" := "close"]
    {
      status, content := 200, "";
      headers := map["Content-Type" := "text/json", "Server" := "tonghao&asio", "Connection" := "close"];
    }

    /** A stock reply carries the page of its status and the page's length, and no other header. */
    constructor Stock(code: int)
      ensures status == code && content == StockPage(code)
      ensures headers == StockHeaders(code)
    {
      status := code;
      var page := StockPage(code);
      content := page;
      headers := map[CONTENT_LENGTH := ToString(|page|)];
    }

    method ToBuffers(now: string, order: seq<string>) returns (buffers: seq<string>)
      requires IsOrderOf(order, Stamped(headers, now, content))
      modifies this`headers
      ensures headers == Stamped(old(headers), now, content)
      ensures Concat(buffers) == Wire(status, FieldsOf(headers, order), content)
    {
      buffers := [StatusLine(status)];
      headers := headers[DATE := now];
      headers := headers[CONTENT_LENGTH := ToString(|content|)];
      buffers := PushFields(buffers, order);
      WireInParts(status, FieldsOf(headers, order), content, buffers);
      buffers := buffers + [CRLF] + [content];
    }

    /** The loop of `ToBuffers`: four buffers for each header. */
    method PushFields(start: seq<string>, order: seq<string>) returns (buffers: seq<string>)
      requires forall k :: 0 <= k < |order| ==> order[k] in headers
      ensures Concat(buffers) == Concat(start) + FieldBlock(FieldsOf(headers, order))
    {
      buffers := start;
      ghost var fields := FieldsOf(headers, order);
      for n := 0 to |order|
        invariant Concat(buffers) + FieldBlock(fields[n..]) == Concat(start) + FieldBlock(fields)
      {
        PushField(buffers, fields, n);
        buffers := buffers + [order[n], SEPARATOR, headers[order[n]], CRLF];
      }
      assert fields[|order|..] == [];
    }
  }

  lemma WireInParts(code: int, fields: seq<Field>, content: string, buffers: seq<string>)
    requires Concat(buffers) == Concat([StatusLine(code)]) + FieldBlock(fields)
    ensures Concat(buffers + [CRLF] + [content]) == Wire(code, fields, content)
  {
    ConcatSnoc(buffers + [CRLF], content);
    ConcatSnoc(buffers, CRLF);
    ConcatSingle(StatusLine(code));
    AssociateAll(StatusLine(code), FieldBlock(fields), CRLF, content);
  }

  lemma AssociateAll(a: string, b: string, c: string, d: string)
    ensures a + b + c + d == a + (b + (c + d))
  {
  }

  lemma PushField(buffers: seq<string>, fields: seq<Field>, n: nat)
    requires n < |fields|
    ensures
      var f := fields[n];
      Concat(buffers + [f.name, SEPARATOR, f.value, CRLF]) + FieldBlock(fields[n + 1..])
        == Concat(buffers) + FieldBlock(fields[n..])
  {
    var f := fields[n];
    ConcatAppend(buffers, [f.name, SEPARATOR, f.value, CRLF]);
    FieldBuffers(f);
    assert fields[n..][1..] == fields[n + 1..];
    assert Concat(buffers) + FieldLine(f) + FieldBlock(fields[n + 1..])
        == Concat(buffers) + (FieldLine(f) + FieldBlock(fields[n + 1..]));
  }

  lemma FieldBuffers(f: Field)
    ensures Concat([f.name, SEPARATOR, f.value, CRLF]) == FieldLine(f)
  {
    assert [f.name, SEPARATOR, f.value, CRLF] == [f.name] + [SEPARATOR] + [f.value] + [CRLF];
    ConcatSnoc([f.name] + [SEPARATOR] + [f.value], CRLF);
    ConcatSnoc([f.name] + [SEPARATOR], f.value);
    ConcatSnoc([f.name], SEPARATOR);
    ConcatSingle(f.name);
  }
}

/** The round trip from a response to its readers. */
module ResponseRoundTrip {
  import opened Bytes
  import opened Decimal
  import opened Client
  import opened Response

  ghost predicate NewlineFree(fields: seq<Field>) {
    forall k :: 0 <= k < |fields| ==> '\n' !in fields[k].name && '\n' !in fields[k].value
  }

  /** The text of one header line without its newline, which is what the client logs. */
  function LineText(f: Field): string {
    f.name + SEPARATOR + f.value + "\r"
  }

  function LineTexts(fields: seq<Field>): (r: seq<string>)
    ensures |r| == |fields|
    ensures forall k :: 0 <= k < |fields| ==> r[k] == LineText(fields[k])
  {
    if fields == [] then [] else [LineText(fields[0])] + LineTexts(fields[1..])
  }

  lemma StatusWordsAreRead(version: string, digits: string, line: string, s: string)
    requires version != "" && (forall k :: 0 <= k < |version| ==> !IsSpace(version[k])) && "HTTP/" <= version
    requires digits != "" && AllDigits(digits) && Value(digits) <= INT_MAX
    requires line != "" && !IsDigit(line[0]) && '\n' !in line
    ensures ReadStatus(version + (" " + digits + (line + "\n" + s))) == Some((Value(digits), s))
  {
    var s3 := line + "\n" + s;
    WordOf(version, " " + digits + s3);
    IntOf(digits, s3);
    LineOf(line, s);
  }

  lemma StatusLineIsRead(code: nat, reason: string, s: string)
    requires code <= INT_MAX && '\n' !in reason
    ensures ReadStatus(StatusLineOf(code, reason) + s) == Some((code, s))
  {
    var digits := ToString(code);
    RoundTrip(code);
    var line := " " + reason + "\r";
    assert StatusLineOf(code, reason) + s == VERSION + (" " + digits + (line + "\n" + s));
    StatusWordsAreRead(VERSION, digits, line, s);
  }

  lemma StatusIsRead(code: int, s: string)
    ensures ReadStatus(StatusLine(code) + s) == Some((Effective(code), s))
  {
    StatusLineIsRead(Effective(code), Reason(code), s);
  }

  /** The client reads back the very code for each one in the table, and 500 for every other. */
  lemma CodeIsRead(code: int, s: string)
    ensures
      var expected :=
        if code == 200 || code == 201 || code == 202 || code == 204
          || code == 300 || code == 301 || code == 302 || code == 304
          || code == 400 || code == 401 || code == 403 || code == 404
          || code == 500 || code == 501 || code == 502 || code == 503
        then code else 500;
      ReadStatus(StatusLine(code) + s) == Some((expected, s))
  {
    StatusIsRead(code, s);
  }

  lemma {:induction false} HeadersAreRead(fields: seq<Field>, s: string)
    requires NewlineFree(fields)
    ensures HeaderLines(FieldBlock(fields) + (CRLF + s)) == (LineTexts(fields), s)
  {
    if fields == [] {
      assert FieldBlock(fields) + (CRLF + s) == "\r" + "\n" + s;
      LineOf("\r", s);
    } else {
      var f := fields[0];
      var rest := FieldBlock(fields[1..]) + (CRLF + s);
      assert FieldBlock(fields) + (CRLF + s) == LineText(f) + "\n" + rest;
      LineOf(LineText(f), rest);
      assert LineText(f)[|f.name|] == ':';
      HeadersAreRead(fields[1..], s);
    }
  }

  /** The client reads back the code and exactly the header lines, and stops where the content
      begins, whatever the content is and however much of it has arrived. */
  lemma ClientReadsResponse(code: int, fields: seq<Field>, content: string)
    requires NewlineFree(fields)
    ensures Read(Wire(code, fields, content)) ==
            if code == 200 then Ok(LineTexts(fields), content)
            else if code in {201, 202, 204, 300, 301, 302, 304, 400, 401, 403, 404, 501, 502, 503} then NotOk(code)
            else NotOk(500)
  {
    StatusIsRead(code, FieldBlock(fields) + (CRLF + content));
    HeadersAreRead(fields, content);
  }

  /** For an ok response that is so if and only if no name and no value contains a newline. */
  lemma {:induction false} ClientReadsIffNewlineFree(fields: seq<Field>, content: string)
    ensures Read(Wire(200, fields, content)) == Ok(LineTexts(fields), content) <==> NewlineFree(fields)
  {
    if NewlineFree(fields) {
      ClientReadsResponse(200, fields, content);
    } else {
      var k :| 0 <= k < |fields| && !('\n' !in fields[k].name && '\n' !in fields[k].value);
      var block := FieldBlock(fields) + (CRLF + content);
      StatusIsRead(200, block);
      LinesHaveNoNewline(block);
      var f := fields[k];
      assert LineTexts(fields)[k] == (f.name + SEPARATOR) + f.value + "\r";
      assert '\n' in LineTexts(fields)[k];
    }
  }

  // ---------------------------------------------------------------- a reader that frames the content

  /** Splits a header line at its first colon, which a space must follow; the line must end in a carriage
      return, and neither is part of the value. */
  function SplitField(line: string): Option<Field> {
    if ':' !in line then None
    else
      var k := IndexOf(line, ':');
      if |line| < k + 3 || line[k + 1] != ' ' || line[|line| - 1] != '\r' then None
      else Some(Field(line[..k], line[k + 2..|line| - 1]))
  }

  function CollectFields(lines: seq<string>): map<string, string> {
    if lines == [] then map[]
    else
      var m := CollectFields(lines[..|lines| - 1]);
      match SplitField(lines[|lines| - 1])
      case None => m
      case Some(f) => m[f.name := f.value]
  }

  datatype Received = Received(code: int, headers: map<string, string>, content: string, rest: string)

  /** The length of the content: none after 204 and 304 whatever the header fields say, otherwise what
      Content-Length says (section 6.3 of RFC 9112, rules 1 and 6). */
  function ContentLength(code: int, headers: map<string, string>): Option<nat> {
    if code == 204 || code == 304 then Some(0)
    else if CONTENT_LENGTH in headers && AllDigits(headers[CONTENT_LENGTH]) then Some(Value(headers[CONTENT_LENGTH]))
    else None
  }

  /** Takes the content off the front of what follows the header. */
  function Frame(code: int, headers: map<string, string>, rest: string): Option<Received> {
    match ContentLength(code, headers)
    case None => None
    case Some(n) =>
      if |rest| < n then None
      else Some(Received(code, headers, rest[..n], rest[n..]))
  }

  function Receive(s: string): Option<Received> {
    match ReadStatus(s)
    case None => None
    case Some((code, block)) =>
      var (lines, rest) := HeaderLines(block);
      Frame(code, CollectFields(lines), rest)
  }

  lemma SplitIsInverse(f: Field)
    requires ':' !in f.name
    ensures SplitField(LineText(f)) == Some(f)
  {
    var line := LineText(f);
    assert line[|f.name|] == ':' && line[..|f.name|] == f.name;
    IndexOfUnique(line, ':', |f.name|);
    assert line[|f.name| + 1] == ' ' && line[|line| - 1] == '\r';
    assert line[|f.name| + 2..|line| - 1] == f.value;
  }

  ghost predicate ColonFreeNames(fields: seq<Field>) {
    forall k :: 0 <= k < |fields| ==> ':' !in fields[k].name
  }

  function MapOf(fields: seq<Field>): map<string, string> {
    if fields == [] then map[]
    else MapOf(fields[..|fields| - 1])[fields[|fields| - 1].name := fields[|fields| - 1].value]
  }

  lemma LineTextsSnoc(fields: seq<Field>, f: Field)
    ensures LineTexts(fields + [f]) == LineTexts(fields) + [LineText(f)]
  {
  }

  lemma {:induction false} CollectIsInverse(fields: seq<Field>)
    requires ColonFreeNames(fields)
    ensures CollectFields(LineTexts(fields)) == MapOf(fields)
  {
    if fields != [] {
      var n := |fields| - 1;
      assert fields == fields[..n] + [fields[n]];
      LineTextsSnoc(fields[..n], fields[n]);
      assert LineTexts(fields)[..n] == LineTexts(fields[..n]);
      CollectIsInverse(fields[..n]);
      SplitIsInverse(fields[n]);
    }
  }

  /** Whatever the iteration order, the fields written give back the map. */
  lemma {:induction false} FieldsGiveBackMap(headers: map<string, string>, order: seq<string>)
    requires forall k :: 0 <= k < |order| ==> order[k] in headers
    ensures forall name :: name in MapOf(FieldsOf(headers, order)) <==> name in order
    ensures forall name :: name in order ==> MapOf(FieldsOf(headers, order))[name] == headers[name]
  {
    if order != [] {
      var n := |order| - 1;
      assert FieldsOf(headers, order)[..n] == FieldsOf(headers, order[..n]);
      FieldsGiveBackMap(headers, order[..n]);
      assert order == order[..n] + [order[n]];
    }
  }

  ghost predicate Sendable(headers: map<string, string>) {
    forall name :: name in headers ==> ':' !in name && '\n' !in name && '\n' !in headers[name]
  }

  lemma FieldsAreClean(headers: map<string, string>, order: seq<string>)
    requires Sendable(headers)
    requires forall k :: 0 <= k < |order| ==> order[k] in headers
    ensures NewlineFree(FieldsOf(headers, order)) && ColonFreeNames(FieldsOf(headers, order))
  {
  }

  lemma FieldsAreTheMap(headers: map<string, string>, order: seq<string>)
    requires IsOrderOf(order, headers)
    ensures MapOf(FieldsOf(headers, order)) == headers
  {
    FieldsGiveBackMap(headers, order);
  }

  lemma FieldsAreReceived(code: int, headers: map<string, string>, order: seq<string>, s: string)
    requires Sendable(headers) && IsOrderOf(order, headers)
    ensures Receive(Wire(code, FieldsOf(headers, order), s)) == Frame(Effective(code), headers, s)
  {
    var fields := FieldsOf(headers, order);
    FieldsAreClean(headers, order);
    CollectIsInverse(fields);
    FieldsAreTheMap(headers, order);
    StatusIsRead(code, FieldBlock(fields) + (CRLF + s));
    HeadersAreRead(fields, s);
  }

  lemma ContentIsFramed(code: int, headers: map<string, string>, content: string, extra: string)
    requires CONTENT_LENGTH in headers && headers[CONTENT_LENGTH] == ToString(|content|)
    ensures Frame(code, headers, content + extra) ==
            if code in {204, 304} then Some(Received(code, headers, "", content + extra))
            else Some(Received(code, headers, content, extra))
  {
    RoundTrip(|content|);
    var s := content + extra;
    assert s[..|content|] == content && s[|content|..] == extra;
    assert s[..0] == "" && s[0..] == s;
  }

  /** Round trip with framing: behind a response that the server wrote, a reader that honours
      Content-Length recovers the code, the header map and the content, and leaves exactly what
      follows the response; but after 204 and 304 it leaves the content as well. */
  lemma RoundTripWithFraming(
      code: int, headers: map<string, string>, now: string, order: seq<string>, content: string, extra: string)
    requires Sendable(headers) && '\n' !in now
    requires IsOrderOf(order, Stamped(headers, now, content))
    ensures
      var sent := Stamped(headers, now, content);
      Receive(Wire(code, FieldsOf(sent, order), content) + extra) == Some(
        if Effective(code) in {204, 304} then Received(Effective(code), sent, "", content + extra)
        else Received(Effective(code), sent, content, extra))
  {
    var sent := Stamped(headers, now, content);
    StampedIsSendable(headers, now, content);
    WireExtends(code, FieldsOf(sent, order), content, extra);
    FieldsAreReceived(code, sent, order, content + extra);
    ContentIsFramed(Effective(code), sent, content, extra);
  }

  /** The content is recovered if and only if the code admits content or there is none. */
  lemma ContentIsRecoveredIff(
      code: int, headers: map<string, string>, now: string, order: seq<string>, content: string, extra: string)
    requires Sendable(headers) && '\n' !in now
    requires IsOrderOf(order, Stamped(headers, now, content))
    ensures
      var sent := Stamped(headers, now, content);
      Receive(Wire(code, FieldsOf(sent, order), content) + extra)
        == Some(Received(Effective(code), sent, content, extra))
      <==> content == "" || Effective(code) !in {204, 304}
  {
    RoundTripWithFraming(code, headers, now, order, content, extra);
    assert "" + extra == extra;
  }

  lemma StockIsSendable(code: int)
    ensures Sendable(StockHeaders(code))
  {
    var stamped := Stamped(map[], "", StockPage(code));
    StampedIsSendable(map[], "", StockPage(code));
    assert CONTENT_LENGTH in stamped && stamped[CONTENT_LENGTH] == StockHeaders(code)[CONTENT_LENGTH];
  }

  /** A reader recovers a stock reply, for every code in or outside the table, if and only if the code
      admits content: the pages sent with 204 and 304 stay behind as the beginning of the next message. */
  lemma StockReplyIsRecoveredIff(code: int, now: string, order: seq<string>, extra: string)
    requires '\n' !in now
    requires IsOrderOf(order, Stamped(StockHeaders(code), now, StockPage(code)))
    ensures
      var sent := Stamped(StockHeaders(code), now, StockPage(code));
      Receive(Wire(code, FieldsOf(sent, order), StockPage(code)) + extra)
        == Some(Received(Effective(code), sent, StockPage(code), extra))
      <==> Effective(code) !in {204, 304}
  {
    StockIsSendable(code);
    ContentIsRecoveredIff(code, StockHeaders(code), now, order, StockPage(code), extra);
  }

  lemma TwoFields(a: Field, b: Field, s: string)
    ensures FieldBlock([a, b]) + s == FieldLine(a) + FieldLine(b) + s
  {
    assert [a, b][1..] == [b] && [b][1..] == [];
    assert FieldBlock([b]) == FieldLine(b) + "";
  }

  lemma BareOrder(now: string, content: string)
    ensures IsOrderOf(["Date", "Content-Length"], Stamped(map[], now, content))
  {
    assert DATE[0] != CONTENT_LENGTH[0];
  }

  lemma FieldsOfTwo(headers: map<string, string>, a: string, b: string)
    requires a in headers && b in headers
    ensures FieldsOf(headers, [a, b]) == [Field(a, headers[a]), Field(b, headers[b])]
  {
  }

  lemma BareFields(now: string, content: string)
    ensures
      var sent := Stamped(map[], now, content);
      && IsOrderOf(["Date", "Content-Length"], sent)
      && FieldsOf(sent, ["Date", "Content-Length"])
           == [Field("Date", now), Field("Content-Length", ToString(|content|))]
  {
    BareOrder(now, content);
    assert DATE[0] != CONTENT_LENGTH[0];
    FieldsOfTwo(Stamped(map[], now, content), "Date", "Content-Length");
  }

  /** What follows the status line of a response without headers of its own, spelled out. */
  lemma BareBlock(now: string, content: string)
    ensures FieldBlock([Field("Date", now), Field("Content-Length", ToString(|content|))]) + (CRLF + content) ==
            ("Date" + ": " + now + "\r\n") + ("Content-Length" + ": " + ToString(|content|) + "\r\n")
              + ("\r\n" + content)
  {
    TwoFields(Field("Date", now), Field("Content-Length", ToString(|content|)), CRLF + content);
  }

  /** A whole response without headers of its own, spelled out behind its status line. */
  lemma BareResponse(code: int, now: string, content: string)
    ensures
      var sent := Stamped(map[], now, content);
      && IsOrderOf(["Date", "Content-Length"], sent)
      && Wire(code, FieldsOf(sent, ["Date", "Content-Length"]), content) ==
           StatusLine(code) + (("Date" + ": " + now + "\r\n")
             + ("Content-Length" + ": " + ToString(|content|) + "\r\n") + ("\r\n" + content))
  {
    BareFields(now, content);
    BareBlock(now, content);
  }

  lemma WireExtends(code: int, fields: seq<Field>, content: string, extra: string)
    ensures Wire(code, fields, content) + extra == Wire(code, fields, content + extra)
  {
    var head := StatusLine(code);
    var block := FieldBlock(fields);
    assert head + (block + (CRLF + content)) + extra == head + (block + (CRLF + (content + extra)));
  }

  lemma StampedIsSendable(headers: map<string, string>, now: string, content: string)
    requires Sendable(headers) && '\n' !in now
    ensures Sendable(Stamped(headers, now, content))
  {
    RoundTrip(|content|);
    var length := ToString(|content|);
    assert forall k :: 0 <= k < |length| ==> IsDigit(length[k]);
    assert ':' !in DATE && '\n' !in DATE;
    assert ':' !in CONTENT_LENGTH && '\n' !in CONTENT_LENGTH;
  }
}
