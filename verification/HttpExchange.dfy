/**
  The encoder and the parser over one buffer: what utils/http_response.c writes, utils/http_request.c reads back,
  for the responses whose size its fixed arrays allow.
*/
module HttpExchanges {
  import opened Basics
  import opened Buffers
  import opened HttpMessages
  import opened HttpResponses
  import opened HttpRequests

  const INT_LIMIT := 0x8000_0000

  lemma DecimalLength(n: nat)
    requires n < INT_LIMIT
    ensures |Decimal(n)| <= 10
  {
    ShortDecimal(n / 1_0000_0000);
    FourDigitsMore(n / 1_0000);
    FourDigitsMore(n);
  }

  lemma ShortDecimal(n: nat)
    requires n < 100
    ensures |Decimal(n)| <= 2
  {
  }

  lemma FourDigitsMore(n: nat)
    ensures |Decimal(n)| <= |Decimal(n / 1_0000)| + 4
  {
    OneDigitMore(n);
    OneDigitMore(n / 10);
    OneDigitMore(n / 100);
    OneDigitMore(n / 1000);
    assert n / 10 / 10 == n / 100 && n / 100 / 10 == n / 1000 && n / 1000 / 10 == n / 1_0000;
  }

  lemma OneDigitMore(n: nat)
    ensures |Decimal(n)| <= |Decimal(n / 10)| + 1
  {
  }

  /**
    Exactly which responses the parser's arrays can take. The two header lines that the encoder adds count: a
    response with 127 or 128 headers of its own, which it has room for, is one the parser has no room for.
  */
  lemma ResponseFits(r: HttpResponse)
    requires r.Valid() && r.statusCode < INT_LIMIT
    ensures Fits(ResponseMessage(r)) <==> |r.statusMessage| < MAX_LINE && r.headerNumber + 2 <= HEADER_CAPACITY
  {
    DecimalLength(r.statusCode);
    if r.headerNumber > 0 { ToHeadersAt(r.Fields(), 0); }
  }

  /** Responses that can be read back: clean fields, and sizes that the parser's arrays allow. */
  ghost predicate Readable(responses: seq<HttpResponse>)
    reads responses, set r | r in responses :: r.headers
  {
    forall i :: 0 <= i < |responses| ==>
      var r := responses[i];
      && r.Valid() && CleanResponse(r)
      && r.statusCode < INT_LIMIT && |r.statusMessage| < MAX_LINE && r.headerNumber + 2 <= HEADER_CAPACITY
  }

  ghost predicate AreMessagesOf(ms: seq<Message>, responses: seq<HttpResponse>)
    requires Readable(responses)
    reads responses, set r | r in responses :: r.headers
  {
    |ms| == |responses| && forall i :: 0 <= i < |ms| ==> ms[i] == ResponseMessage(responses[i])
  }

  lemma {:induction false} MessagesOf(responses: seq<HttpResponse>) returns (ms: seq<Message>)
    requires Readable(responses)
    ensures AreMessagesOf(ms, responses)
  {
    if responses == [] {
      ms := [];
    } else {
      var n := |responses| - 1;
      var before := MessagesOf(responses[..n]);
      ms := before + [ResponseMessage(responses[n])];
    }
  }

  lemma ReadableMessages(responses: seq<HttpResponse>, ms: seq<Message>)
    requires Readable(responses) && AreMessagesOf(ms, responses)
    ensures forall i :: 0 <= i < |ms| ==> Clean(ms[i]) && Fits(ms[i]) && Tells(ms[i], responses[i])
  {
    forall i | 0 <= i < |ms| ensures Clean(ms[i]) && Fits(ms[i]) && Tells(ms[i], responses[i]) {
      WellFormedResponse(responses[i]);
      ResponseFits(responses[i]);
      ResponseTells(responses[i]);
    }
  }

  lemma {:induction false} FormatAllSnoc(ms: seq<Message>, m: Message)
    ensures FormatAll(ms + [m]) == FormatAll(ms) + Format(m)
  {
    if ms == [] {
      assert ms + [m] == [m];
      assert [m][1..] == [];
      assert FormatAll([m]) == Format(m) + FormatAll([]);
    } else {
      assert (ms + [m])[1..] == ms[1..] + [m];
      FormatAllSnoc(ms[1..], m);
    }
  }

  lemma FormatOneMore(ms: seq<Message>, i: nat)
    requires i < |ms|
    ensures FormatAll(ms[..i + 1]) == FormatAll(ms[..i]) + Format(ms[i])
  {
    assert ms[..i + 1] == ms[..i] + [ms[i]];
    FormatAllSnoc(ms[..i], ms[i]);
  }

  /** Encodes the responses one behind the other. */
  method EncodeAll(buffer: Buffer, responses: seq<HttpResponse>, ghost ms: seq<Message>)
    requires buffer.Valid() && buffer.Readable() == [] && Readable(responses) && AreMessagesOf(ms, responses)
    modifies buffer`data, buffer`readIndex, buffer`writeIndex, buffer`totalSize, buffer.data
    ensures Readable(responses) && AreMessagesOf(ms, responses)
    ensures buffer.Valid() && buffer.Readable() == FormatAll(ms)
  {
    ghost var text := [];
    for i := 0 to |responses|
      invariant buffer.Valid() && (buffer.data == old(buffer.data) || fresh(buffer.data))
      invariant Readable(responses) && AreMessagesOf(ms, responses) && buffer.Readable() == text && text == FormatAll(ms[..i])
    {
      EncodeNext(buffer, responses, i, ms, text);
      FormatOneMore(ms, i);
      text := text + Format(ms[i]);
    }
    assert ms[..|responses|] == ms;
  }

  method EncodeNext(buffer: Buffer, responses: seq<HttpResponse>, i: nat, ghost ms: seq<Message>, ghost text: string)
    requires buffer.Valid() && buffer.Readable() == text && Readable(responses) && AreMessagesOf(ms, responses) && i < |responses|
    modifies buffer`data, buffer`readIndex, buffer`writeIndex, buffer`totalSize, buffer.data
    ensures buffer.Valid() && (buffer.data == old(buffer.data) || fresh(buffer.data))
    ensures Readable(responses) && AreMessagesOf(ms, responses) && buffer.Readable() == text + Format(ms[i])
  {
    HttpEncodeResponse(buffer, responses[i], Format(ms[i]));
  }

  /** `ms` is what there is still to read before `rest`. */
  ghost predicate Awaits(text: string, ms: seq<Message>, rest: string) {
    && text == FormatAll(ms) + rest
    && forall i :: 0 <= i < |ms| ==> Clean(ms[i]) && Fits(ms[i])
  }

  lemma NextMessage(text: string, ms: seq<Message>, rest: string) returns (next: string)
    requires Awaits(text, ms, rest) && ms != []
    ensures Parse(text) == Some((ms[0], next)) && Fits(ms[0]) && Awaits(next, ms[1..], rest)
  {
    next := FormatAll(ms[1..]) + rest;
    FirstOfAll(ms, text, rest, next);
  }

  /** Parses one message, notes what the request holds, and resets the request for the next one. */
  method ParseNext(request: HttpRequest, buffer: Buffer, ghost ms: seq<Message>, ghost rest: string) returns (message: Message)
    requires request.Valid() && request.headerNumber == 0 && buffer.Valid()
    requires ms != [] && Awaits(buffer.Readable(), ms, rest)
    modifies request, request.headers, buffer`readIndex
    ensures request.Valid() && request.headerNumber == 0 && buffer.Valid()
    ensures message == ms[0] && Awaits(buffer.Readable(), ms[1..], rest)
  {
    ghost var _ := NextMessage(buffer.Readable(), ms, rest);
    request.HttpRequestParse(buffer);
    message := Message(request.verb, request.url, request.version, request.headers[..request.headerNumber]);
    request.Reset();
  }

  method ParseAll(request: HttpRequest, buffer: Buffer, n: nat, ghost ms: seq<Message>, ghost rest: string)
    returns (messages: seq<Message>)
    requires request.Valid() && request.headerNumber == 0 && buffer.Valid()
    requires n == |ms| && Awaits(buffer.Readable(), ms, rest)
    modifies request, request.headers, buffer`readIndex
    ensures messages == ms && buffer.Valid() && buffer.Readable() == rest
  {
    messages := [];
    ghost var left := ms;
    for i := 0 to n
      invariant request.Valid() && request.headerNumber == 0 && buffer.Valid()
      invariant |left| == n - i && messages + left == ms && Awaits(buffer.Readable(), left, rest)
    {
      var message := ParseNext(request, buffer, left, rest);
      assert messages + left == messages + [message] + left[1..];
      messages, left := messages + [message], left[1..];
    }
  }

  /**
    The round trip on the objects: encoding any readable responses into an empty buffer and parsing as many messages
    from it, with a reset after each, recovers what every response holds, in order, and uses the buffer up.
  */
  method EncodeThenParse(buffer: Buffer, responses: seq<HttpResponse>, request: HttpRequest)
    returns (messages: seq<Message>)
    requires buffer.Valid() && buffer.Readable() == [] && Readable(responses)
    requires request.Valid() && request.headerNumber == 0
    modifies buffer`data, buffer`readIndex, buffer`writeIndex, buffer`totalSize, buffer.data, request, request.headers
    ensures buffer.Valid() && buffer.Readable() == []
    ensures |messages| == |responses|
    ensures forall i :: 0 <= i < |responses| ==> responses[i].Valid() && Tells(messages[i], responses[i])
  {
    ghost var ms := MessagesOf(responses);
    EncodeAll(buffer, responses, ms);
    messages := ParseResponses(buffer, responses, request, ms);
  }

  method ParseResponses(buffer: Buffer, responses: seq<HttpResponse>, request: HttpRequest, ghost ms: seq<Message>)
    returns (messages: seq<Message>)
    requires Readable(responses) && AreMessagesOf(ms, responses) && buffer.Valid() && buffer.Readable() == FormatAll(ms)
    requires request.Valid() && request.headerNumber == 0
    modifies buffer`readIndex, request, request.headers
    ensures buffer.Valid() && buffer.Readable() == []
    ensures |messages| == |responses|
    ensures forall i :: 0 <= i < |responses| ==> responses[i].Valid() && Tells(messages[i], responses[i])
  {
    ReadableMessages(responses, ms);
    Waiting(buffer.Readable(), ms);
    messages := ParseAll(request, buffer, |responses|, ms, []);
    forall i | 0 <= i < |responses| ensures responses[i].Valid() && Tells(messages[i], responses[i]) {
      assert old(responses[i].Valid() && Tells(ms[i], responses[i]));
    }
  }

  lemma {:induction false} Waiting(text: string, ms: seq<Message>)
    requires text == FormatAll(ms) && forall i :: 0 <= i < |ms| ==> Clean(ms[i]) && Fits(ms[i])
    ensures Awaits(text, ms, [])
  {
    assert FormatAll(ms) + [] == FormatAll(ms);
  }
}
