/** The response encoder, appending to a connection's output buffer (utils/http_response.c). */
module HttpResponses {
  import opened Basics
  import opened Buffers
  import opened HttpMessages

  datatype HeaderField = HeaderField(key: CString, value: CString)

  class HttpResponse {
    var statusCode: nat
    var statusMessage: CString
    var keepConnected: bool
    var body: array?<char>
    var fileSize: nat
    const headers: array<HeaderField>
    var headerNumber: nat

    ghost predicate Valid() reads this { headerNumber <= headers.Length == HEADER_CAPACITY }

    constructor ()
      ensures Valid() && fresh(headers) && headerNumber == 0 && body == null && statusCode == 0 && statusMessage == ""
      ensures !keepConnected
    {
      headers := new HeaderField[HEADER_CAPACITY](_ => HeaderField("", ""));
      statusCode, statusMessage, keepConnected := 0, "", false;
      body, fileSize, headerNumber := null, 0, 0;
    }

    ghost function Fields(): seq<HeaderField>
      requires Valid()
      reads this, headers
    {
      headers[..headerNumber]
    }

    method Reset()
      requires Valid()
      modifies this`statusCode, this`statusMessage, this`headerNumber
      ensures Valid() && Fields() == [] && statusCode == 0 && statusMessage == ""
    {
      statusMessage, statusCode, headerNumber := "", 0, 0;
    }

    method AddHeader(key: CString, value: CString)
      requires Valid() && headerNumber < HEADER_CAPACITY
      modifies this`headerNumber, headers
      ensures Valid() && Fields() == old(Fields()) + [HeaderField(key, value)]
    {
      headers[headerNumber] := HeaderField(key, value);
      headerNumber := headerNumber + 1;
    }
  }

  function ToHeaders(fs: seq<HeaderField>): seq<Header> {
    if fs == [] then [] else [Header(fs[0].key, fs[0].value)] + ToHeaders(fs[1..])
  }

  /** The two header lines the encoder adds of its own; the value of the second is as the code chooses it. */
  function ServerHeader(): Header { Header("Server", "tiny Web Server by Ember") }

  function ConnectionHeader(keepConnected: bool): Header {
    Header("Connection", if keepConnected then "close" else "Keep-Alive")
  }

  function OwnHeaders(keepConnected: bool): seq<Header> { [ServerHeader(), ConnectionHeader(keepConnected)] }

  ghost function ResponseMessage(r: HttpResponse): Message
    requires r.Valid()
    reads r, r.headers
  {
    Message("HTTP/1.1", Decimal(r.statusCode), r.statusMessage, OwnHeaders(r.keepConnected) + ToHeaders(r.Fields()))
  }

  lemma {:induction false} LinesOfSnoc(fs: seq<HeaderField>, f: HeaderField)
    ensures HeaderLines(ToHeaders(fs + [f])) == HeaderLines(ToHeaders(fs)) + HeaderLine(Header(f.key, f.value))
  {
    if fs == [] {
      assert fs + [f] == [f];
      assert [f][1..] == [];
      assert HeaderLines(ToHeaders([f])) == HeaderLine(Header(f.key, f.value));
    } else {
      assert (fs + [f])[1..] == fs[1..] + [f];
      LinesOfSnoc(fs[1..], f);
    }
  }

  lemma {:induction false} LinesConcat(a: seq<Header>, b: seq<Header>)
    ensures HeaderLines(a + b) == HeaderLines(a) + HeaderLines(b)
  {
    if a == [] {
      assert a + b == b;
    } else {
      assert (a + b)[1..] == a[1..] + b;
      LinesConcat(a[1..], b);
    }
  }

  lemma DecimalIsPlain(n: nat)
    ensures '\0' !in Decimal(n) && CleanWord(Decimal(n))
  {
  }

  lemma Cat4(s: string, a: string, b: string, c: string, d: string)
    ensures s + a + b + c + d == s + (a + b + c + d)
    ensures s + a + b == s + (a + b)
  {
  }

  lemma LineIsCString(h: Header)
    requires '\0' !in h.key && '\0' !in h.value
    ensures '\0' !in HeaderLine(h)
  {
  }

  lemma ServerHeaderIsCString()
    ensures '\0' !in HeaderLine(ServerHeader())
  {
    LineIsCString(ServerHeader());
  }

  lemma ConnectionHeaderIsCString(keepConnected: bool)
    ensures '\0' !in HeaderLine(ConnectionHeader(keepConnected))
  {
    LineIsCString(ConnectionHeader(keepConnected));
  }

  /** sprintf(buf, "HTTP/1.1 %d ", code) */
  function StatusPrefix(code: nat): string { "HTTP/1.1" + " " + Decimal(code) + " " }

  lemma StatusPrefixIsCString(code: nat)
    ensures '\0' !in StatusPrefix(code)
  {
    DecimalIsPlain(code);
  }

  /** The status line and the two header lines every response carries. */
  method EncodeStart(output: Buffer, response: HttpResponse)
    requires output.Valid() && response.Valid()
    modifies output`data, output`readIndex, output`writeIndex, output`totalSize, output.data
    ensures output.Valid() && (output.data == old(output.data) || fresh(output.data))
    ensures output.Readable() == old(output.Readable())
      + EncodedStart(response.statusCode, response.statusMessage, response.keepConnected)
  {
    ghost var start := output.Readable();
    StatusPrefixIsCString(response.statusCode);
    ServerHeaderIsCString();
    ConnectionHeaderIsCString(response.keepConnected);
    var status: CString, server: CString := StatusPrefix(response.statusCode), HeaderLine(ServerHeader());
    var connection: CString := HeaderLine(ConnectionHeader(response.keepConnected));
    output.AppendString(Some(status));
    output.AppendString(Some(response.statusMessage));
    output.AppendString(Some(CRLF));
    output.AppendString(Some(server));
    output.AppendString(Some(connection));
    Cat5(start, status, response.statusMessage, CRLF, server, connection);
  }

  function EncodedStart(code: nat, message: string, keepConnected: bool): string {
    StatusPrefix(code) + message + CRLF + (HeaderLine(ServerHeader()) + HeaderLine(ConnectionHeader(keepConnected)))
  }

  /** A message is the start, the header lines of the response, and an empty line. */
  lemma FormatOfResponse(r: HttpResponse, text: string) returns (start: string, lines: string)
    requires r.Valid() && text == Format(ResponseMessage(r))
    ensures start == EncodedStart(r.statusCode, r.statusMessage, r.keepConnected)
    ensures lines == HeaderLines(ToHeaders(r.Fields())) && text == start + lines + CRLF
  {
    var own := OwnHeaders(r.keepConnected);
    start := EncodedStart(r.statusCode, r.statusMessage, r.keepConnected);
    lines := HeaderLines(ToHeaders(r.Fields()));
    LinesConcat(own, ToHeaders(r.Fields()));
    OwnLines(r.keepConnected);
    assert StartLine(ResponseMessage(r)) == StatusPrefix(r.statusCode) + r.statusMessage + CRLF;
    Cat4(StartLine(ResponseMessage(r)), HeaderLines(own), lines, "", "");
  }

  lemma OwnLines(keepConnected: bool)
    ensures HeaderLines(OwnHeaders(keepConnected)) == HeaderLine(ServerHeader()) + HeaderLine(ConnectionHeader(keepConnected))
  {
    var hs := OwnHeaders(keepConnected);
    assert hs[1..] == [ConnectionHeader(keepConnected)] && hs[1..][1..] == [];
    assert HeaderLines(hs[1..]) == HeaderLine(ConnectionHeader(keepConnected));
  }

  lemma Cat5(s: string, a: string, b: string, c: string, d: string, e: string)
    ensures s + a + b + c + d + e == s + (a + b + c + (d + e))
  {
  }

  method EncodeHeader(output: Buffer, f: HeaderField)
    requires output.Valid()
    modifies output`data, output`readIndex, output`writeIndex, output`totalSize, output.data
    ensures output.Valid() && (output.data == old(output.data) || fresh(output.data))
    ensures output.Readable() == old(output.Readable()) + HeaderLine(Header(f.key, f.value))
  {
    ghost var start := output.Readable();
    output.AppendString(Some(f.key));
    output.AppendString(Some(": "));
    output.AppendString(Some(f.value));
    output.AppendString(Some(CRLF));
    Cat4(start, f.key, ": ", f.value, CRLF);
  }

  method EncodeHeaders(output: Buffer, response: HttpResponse, ghost fields: seq<HeaderField>)
    requires output.Valid() && response.Valid() && (output.data as object) != response.headers
    requires fields == response.Fields()
    modifies output`data, output`readIndex, output`writeIndex, output`totalSize, output.data
    ensures output.Valid() && (output.data == old(output.data) || fresh(output.data))
    ensures output.Readable() == old(output.Readable()) + HeaderLines(ToHeaders(fields))
  {
    ghost var start := output.Readable();
    assert ToHeaders(fields[..0]) == [];
    for i := 0 to response.headerNumber
      invariant output.Valid() && (output.data == old(output.data) || fresh(output.data))
      invariant response.Fields() == fields
      invariant output.Readable() == start + HeaderLines(ToHeaders(fields[..i]))
    {
      assert response.headers[i] == fields[i];
      EncodeHeader(output, response.headers[i]);
      TakeOneMore(fields, i);
      Cat4(start, HeaderLines(ToHeaders(fields[..i])), HeaderLine(Header(fields[i].key, fields[i].value)), "", "");
    }
    assert fields[..response.headerNumber] == fields;
  }

  lemma TakeOneMore(fs: seq<HeaderField>, i: nat)
    requires i < |fs|
    ensures HeaderLines(ToHeaders(fs[..i + 1])) == HeaderLines(ToHeaders(fs[..i])) + HeaderLine(Header(fs[i].key, fs[i].value))
  {
    assert fs[..i + 1] == fs[..i] + [fs[i]];
    LinesOfSnoc(fs[..i], fs[i]);
  }

  method EncodeLines(output: Buffer, response: HttpResponse, ghost start: string, ghost lines: string)
    requires output.Valid() && response.Valid() && (output.data as object) != response.headers
    requires start == EncodedStart(response.statusCode, response.statusMessage, response.keepConnected)
    requires lines == HeaderLines(ToHeaders(response.Fields()))
    modifies output`data, output`readIndex, output`writeIndex, output`totalSize, output.data
    ensures output.Valid() && (output.data == old(output.data) || fresh(output.data))
    ensures output.Readable() == old(output.Readable()) + start + lines
  {
    ghost var fields := response.Fields();
    EncodeStart(output, response);
    EncodeHeaders(output, response, fields);
  }

  method EncodeText(output: Buffer, response: HttpResponse, ghost start: string, ghost lines: string, ghost text: string)
    requires output.Valid() && response.Valid() && (output.data as object) != response.headers
    requires start == EncodedStart(response.statusCode, response.statusMessage, response.keepConnected)
    requires lines == HeaderLines(ToHeaders(response.Fields())) && text == start + lines + CRLF
    modifies output`data, output`readIndex, output`writeIndex, output`totalSize, output.data
    ensures output.Valid() && (output.data == old(output.data) || fresh(output.data))
    ensures output.Readable() == old(output.Readable()) + text
  {
    ghost var before := output.Readable();
    EncodeLines(output, response, start, lines);
    output.AppendString(Some(CRLF));
    Cat4(before, start, lines, CRLF, "");
    assert before + text == before + start + lines + CRLF;
  }

  /** What a caller must keep out of a response for it to be read back as it was written. */
  ghost predicate CleanResponse(r: HttpResponse)
    requires r.Valid()
    reads r, r.headers
  {
    CleanText(r.statusMessage) && forall i :: 0 <= i < r.headerNumber ==> CleanHeader(Header(r.headers[i].key, r.headers[i].value))
  }

  lemma {:induction false} ToHeadersAt(fs: seq<HeaderField>, i: nat)
    requires i < |fs|
    ensures |ToHeaders(fs)| == |fs| && ToHeaders(fs)[i] == Header(fs[i].key, fs[i].value)
  {
    if i > 0 {
      ToHeadersAt(fs[1..], i - 1);
    } else if |fs| > 1 {
      ToHeadersAt(fs[1..], 0);
    }
  }

  lemma ServerHeaderIsClean()
    ensures CleanHeader(ServerHeader())
  {
    assert CleanText("Server") && ':' !in "Server";
    assert CleanText("tiny Web Server by Ember");
  }

  lemma ConnectionHeaderIsClean(keepConnected: bool)
    ensures CleanHeader(ConnectionHeader(keepConnected))
  {
    assert CleanText("Connection") && ':' !in "Connection";
    assert CleanText("close");
    assert CleanText("Keep-Alive");
  }

  lemma WellFormedResponse(r: HttpResponse)
    requires r.Valid() && CleanResponse(r)
    ensures Clean(ResponseMessage(r))
  {
    DecimalIsPlain(r.statusCode);
    ServerHeaderIsClean();
    ConnectionHeaderIsClean(r.keepConnected);
    var hs, fs := ResponseMessage(r).headers, ToHeaders(r.Fields());
    forall i | 0 <= i < |hs| ensures CleanHeader(hs[i]) {
      if i >= 2 {
        if r.Fields() != [] { ToHeadersAt(r.Fields(), 0); }
        assert hs[i] == fs[i - 2];
        ToHeadersAt(r.Fields(), i - 2);
      }
    }
  }

  /** The parts of a message are what the response holds, field by field. */
  ghost predicate Tells(m: Message, r: HttpResponse)
    requires r.Valid()
    reads r, r.headers
  {
    && m.first == "HTTP/1.1"
    && (forall i :: 0 <= i < |m.second| ==> '0' <= m.second[i] <= '9') && Value(m.second) == r.statusCode
    && m.third == r.statusMessage
    && |m.headers| == r.headerNumber + 2
    && m.headers[0] == Header("Server", "tiny Web Server by Ember")
    && m.headers[1] == Header("Connection", if r.keepConnected then "close" else "Keep-Alive")
    && forall i :: 0 <= i < r.headerNumber ==> m.headers[i + 2] == Header(r.headers[i].key, r.headers[i].value)
  }

  lemma ResponseTells(r: HttpResponse)
    requires r.Valid()
    ensures Tells(ResponseMessage(r), r)
  {
    DecimalRoundTrip(r.statusCode);
    var hs, fs := ResponseMessage(r).headers, ToHeaders(r.Fields());
    if r.Fields() != [] { ToHeadersAt(r.Fields(), 0); }
    forall i | 0 <= i < r.headerNumber ensures hs[i + 2] == Header(r.headers[i].key, r.headers[i].value) {
      assert hs[i + 2] == fs[i];
      ToHeadersAt(r.Fields(), i);
    }
  }

  /** A reader of `text`, whatever follows it, finds what the response holds, and goes on just behind it. */
  ghost predicate ReadsBack(text: string, rest: string, r: HttpResponse)
    requires r.Valid()
    reads r, r.headers
  {
    var p := Parse(text + rest);
    p.Some? && Tells(p.value.0, r) && p.value.1 == rest
  }

  /**
    Encoding then parsing: what stands for a response is read back as the version token, the decimal status, the
    status message and all headers in order, and reading stops at the first character after it.
  */
  lemma EncodeParseRoundTrip(r: HttpResponse, text: string, rest: string)
    requires r.Valid() && CleanResponse(r) && text == Format(ResponseMessage(r))
    ensures ReadsBack(text, rest, r)
  {
    WellFormedResponse(r);
    FormatParseRoundTrip(ResponseMessage(r), rest);
    ResponseTells(r);
  }

  lemma AllRoundTrips(r: HttpResponse, text: string)
    requires r.Valid() && text == Format(ResponseMessage(r))
    ensures CleanResponse(r) ==> forall rest :: ReadsBack(text, rest, r)
  {
    if CleanResponse(r) {
      forall rest ensures ReadsBack(text, rest, r) {
        EncodeParseRoundTrip(r, text, rest);
      }
    }
  }

  lemma ServerText()
    ensures HeaderLine(ServerHeader()) == "Server: tiny Web Server by Ember\r\n"
  {
  }

  lemma CloseText()
    ensures HeaderLine(ConnectionHeader(true)) == "Connection: close\r\n"
  {
  }

  lemma KeepAliveText()
    ensures HeaderLine(ConnectionHeader(false)) == "Connection: Keep-Alive\r\n"
  {
  }

  /** Every character of the message, for any response, in front of the caller's header lines and behind them. */
  lemma TextIs(r: HttpResponse, text: string)
    requires r.Valid() && text == Format(ResponseMessage(r))
    ensures text ==
      ("HTTP/1.1 " + Decimal(r.statusCode) + " ") + r.statusMessage + "\r\n"
      + ("Server: tiny Web Server by Ember\r\n" + (if r.keepConnected then "Connection: close\r\n" else "Connection: Keep-Alive\r\n"))
      + HeaderLines(ToHeaders(r.Fields())) + "\r\n"
  {
    var start, lines := FormatOfResponse(r, text);
    ServerText();
    if r.keepConnected { CloseText(); } else { KeepAliveText(); }
    StatusPrefixIs(r.statusCode);
  }

  lemma StatusPrefixIs(code: nat)
    ensures StatusPrefix(code) == "HTTP/1.1 " + Decimal(code) + " "
  {
    assert "HTTP/1.1" + " " == "HTTP/1.1 ";
  }

  /** http_encode_response; `text` is the message that the response stands for. */
  method HttpEncodeResponse(output: Buffer, response: HttpResponse, ghost text: string)
    requires output.Valid() && response.Valid() && (output.data as object) != response.headers
    requires text == Format(ResponseMessage(response))
    modifies output`data, output`readIndex, output`writeIndex, output`totalSize, output.data
    ensures output.Valid() && (output.data == old(output.data) || fresh(output.data))
    ensures output.Readable() == old(output.Readable()) + text
    ensures CleanResponse(response) ==> forall rest :: ReadsBack(text, rest, response)
  {
    ghost var start, lines := FormatOfResponse(response, text);
    EncodeText(output, response, start, lines, text);
    AllRoundTrips(response, text);
  }
}
