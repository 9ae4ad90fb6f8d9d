/** The request parser with its cursor on the input buffer (utils/http_request.c). */
module HttpRequests {
  import opened Basics
  import opened Buffers
  import opened HttpMessages

  const MAX_LINE := 128

  datatype ParseStatus = AtStart | AtHeader | AtBody | Done

  /** The words and the headers fit the fixed arrays of a request. */
  ghost predicate Fits(m: Message) {
    |m.first| < MAX_LINE && |m.second| < MAX_LINE && |m.third| < MAX_LINE && |m.headers| <= HEADER_CAPACITY
  }

  /** With `done` read and `text` ahead, the headers will come out as in `all`. */
  ghost predicate StillToRead(text: string, done: seq<Header>, all: (seq<Header>, string)) {
    var rest := ParseHeaders(text);
    && rest.Some? && all == (done + rest.value.0, rest.value.1)
    && |all.0| <= HEADER_CAPACITY
  }

  lemma FirstHeader(text: string, all: (seq<Header>, string))
    requires ParseHeaders(text) == Some(all) && |all.0| <= HEADER_CAPACITY
    ensures StillToRead(text, [], all)
  {
    assert [] + all.0 == all.0;
  }

  /** The start line of `text` holds the words of `start`, with the spaces that the searches find between them. */
  ghost predicate StartIs(text: string, space: nat, space2: nat, start: Start) {
    && text[0..] == text && StrStr(text, CRLF) == Some(start.size) && StrStr(text, " ") == Some(space)
    && space + 1 <= |text| && StrStr(text[space + 1..], " ") == Some(space2)
    && space + 1 + space2 + 1 <= start.size <= |text| - 2
    && start.first == text[..space] && start.second == text[space + 1..space + 1 + space2]
    && start.third == text[space + 1 + space2 + 1..start.size]
  }

  lemma StartAhead(text: string) returns (space: nat, space2: nat)
    requires ParseStart(text).Some?
    ensures StartIs(text, space, space2, ParseStart(text).value)
  {
    space := StrStr(text, " ").value;
    space2 := StrStr(text[space + 1..], " ").value;
  }

  /** `start`, then the headers `rest.0` behind it; `rest.1` begins with the empty line. */
  ghost predicate LinesAre(text: string, start: Start, behind: string, rest: (seq<Header>, string)) {
    && 2 <= start.size <= |text| - 2 && behind == text[start.size + 2..]
    && ParseHeaders(behind) == Some(rest) && |rest.1| >= 2
  }

  /** A message read is a start line read and the headers read behind it. */
  lemma Parts(text: string) returns (start: Start, behind: string, rest: (seq<Header>, string))
    requires Parse(text).Some?
    ensures ParseStart(text) == Some(start) && LinesAre(text, start, behind, rest)
    ensures Parse(text).value.0 == Message(start.first, start.second, start.third, rest.0)
    ensures Parse(text).value.1 == if rest.0 == [] then rest.1 else rest.1[2..]
  {
    start := ParseStart(text).value;
    behind := text[start.size + 2..];
    rest := ParseHeaders(behind).value;
  }

  /** What the two searches of a header line find, and the header between them. */
  lemma HeaderAhead(text: string) returns (end: nat, colon: nat)
    requires ParseHeaders(text).Some? && StrStr(text, CRLF) != Some(0)
    ensures StrStr(text, CRLF) == Some(end) && StrStr(text, ": ") == Some(colon) && colon + 2 <= end <= |text| - 2
    ensures ParseHeaders(text[end + 2..]).Some?
    ensures var rest := ParseHeaders(text[end + 2..]).value;
      ParseHeaders(text).value == ([Header(text[..colon], text[colon + 2..end])] + rest.0, rest.1)
  {
    end, colon := StrStr(text, CRLF).value, StrStr(text, ": ").value;
  }

  lemma LineAhead(text: string, done: seq<Header>, all: (seq<Header>, string))
    requires StillToRead(text, done, all)
    ensures text[0..] == text && StrStr(text, CRLF).Some?
    ensures StrStr(text, CRLF) == Some(0) ==> all == (done, text)
  {
    assert done + [] == done;
  }

  lemma NextHeader(text: string, done: seq<Header>, all: (seq<Header>, string))
    returns (end: nat, colon: nat, h: Header, next: string)
    requires StillToRead(text, done, all) && StrStr(text, CRLF) != Some(0)
    ensures StrStr(text, CRLF) == Some(end) && HeaderIs(text, end, colon, h, next)
    ensures |done| < HEADER_CAPACITY && StillToRead(next, done + [h], all)
  {
    end, colon := HeaderAhead(text);
    h, next := Header(text[..colon], text[colon + 2..end]), text[end + 2..];
    HeadersGoOn(text, done, all, h, next);
  }

  /** The line of `text` that ends at `end` is the header `h`, and `next` follows. */
  ghost predicate HeaderIs(text: string, end: nat, colon: nat, h: Header, next: string) {
    && StrStr(text, ": ") == Some(colon) && colon + 2 <= end <= |text| - 2
    && h == Header(text[..colon], text[colon + 2..end]) && next == text[end + 2..]
  }

  lemma HeadersGoOn(text: string, done: seq<Header>, all: (seq<Header>, string), h: Header, next: string)
    requires StillToRead(text, done, all) && ParseHeaders(next).Some?
    requires ParseHeaders(text).value == ([h] + ParseHeaders(next).value.0, ParseHeaders(next).value.1)
    ensures |done| < HEADER_CAPACITY && StillToRead(next, done + [h], all)
  {
    var rest := ParseHeaders(next).value;
    assert done + ([h] + rest.0) == done + [h] + rest.0;
  }

  class HttpRequest {
    var verb: string
    var url: string
    var version: string
    const headers: array<Header>
    var headerNumber: nat
    var status: ParseStatus

    ghost predicate Valid() reads this { headerNumber <= headers.Length == HEADER_CAPACITY }

    ghost function Fields(): seq<Header>
      requires Valid()
      reads this, headers
    {
      headers[..headerNumber]
    }

    constructor ()
      ensures Valid() && fresh(headers) && headerNumber == 0
    {
      headers := new Header[HEADER_CAPACITY](_ => Header("", ""));
      verb, url, version, headerNumber, status := "", "", "", 0, AtStart;
    }

    method Reset()
      requires Valid()
      modifies this`headerNumber, this`verb, this`url, this`version
      ensures Valid() && verb == url == version == "" && headerNumber == 0
    {
      headerNumber := 0;
      verb, url, version := "", "", "";
    }

    method AddHeader(key: string, value: string)
      requires Valid() && headerNumber < HEADER_CAPACITY
      modifies this`headerNumber, headers
      ensures Valid() && Fields() == old(Fields()) + [Header(key, value)]
    {
      headers[headerNumber] := Header(key, value);
      headerNumber := headerNumber + 1;
    }

    /**
      strstr or strchr, from `offset` characters behind the cursor on. It may look beyond the unread characters, but
      finds what they contain first. The result counts from `offset`.
    */
    method Search(input: Buffer, offset: nat, pattern: string, ghost unread: string) returns (at: nat)
      requires input.Valid() && offset <= input.ReadableSize() && unread == input.Readable()[offset..]
      requires StrStr(unread, pattern).Some?
      ensures StrStr(unread, pattern) == Some(at)
    {
      var memory := input.data[input.readIndex + offset..];
      ghost var after := input.data[input.writeIndex..];
      assert memory == unread + after;
      StrStrExtends(unread, after, pattern);
      var found := StrStr(memory, pattern);
      at := found.value;
    }

    /** buffer_find_CRLF, counted from the cursor. */
    method FindLineEnd(input: Buffer) returns (size: nat)
      requires input.Valid() && StrStr(input.Readable(), CRLF).Some?
      ensures StrStr(input.Readable(), CRLF) == Some(size)
    {
      ghost var unread, after := input.Readable(), input.data[input.writeIndex..];
      assert input.data[input.readIndex..] == unread + after;
      StrStrExtends(unread, after, CRLF);
      var end := input.FindCRLF();
      size := end.value - input.readIndex;
    }

    /** memcpy of the characters from `a` to `b` behind the cursor. */
    method Copy(input: Buffer, a: nat, b: nat) returns (s: string)
      requires input.Valid() && a <= b <= input.ReadableSize()
      ensures s == input.Readable()[a..b]
    {
      s := input.data[input.readIndex + a..input.readIndex + b];
      forall i | 0 <= i < b - a ensures s[i] == input.Readable()[a..b][i] {}
    }

    /** Moves the cursor past `n` characters. */
    method Skip(input: Buffer, n: nat)
      requires input.Valid() && n <= input.ReadableSize()
      modifies input`readIndex
      ensures input.Valid() && input.Readable() == old(input.Readable())[n..]
      ensures input.readIndex == old(input.readIndex) + n
    {
      ghost var text := input.Readable();
      input.readIndex := input.readIndex + n;
      forall i | 0 <= i < |text| - n ensures input.Readable()[i] == text[n..][i] {}
    }

    /** Returns the length of the start line; the cursor does not move. */
    method ReadStartLine(input: Buffer, ghost text: string, ghost spaceAt: nat, ghost spaceAt2: nat, ghost start: Start)
      returns (size: nat)
      requires Valid() && input.Valid() && input.Readable() == text && StartIs(text, spaceAt, spaceAt2, start)
      modifies this`verb, this`url, this`version
      ensures verb == start.first && url == start.second && version == start.third && size == start.size
    {
      size := FindLineEnd(input);
      var space := Search(input, 0, " ", text);
      verb := Copy(input, 0, space);
      var from := space + 1;
      var space2 := Search(input, from, " ", text[spaceAt + 1..]);
      url := Copy(input, from, from + space2);
      from := from + space2 + 1;
      version := Copy(input, from, size);
    }

    /** Reads the header line between the cursor and `end`. */
    method ReadHeader(input: Buffer, ghost text: string, end: nat, ghost colonAt: nat, ghost h: Header, ghost next: string)
      requires Valid() && input.Valid() && headerNumber < HEADER_CAPACITY && input.Readable() == text
      requires HeaderIs(text, end, colonAt, h, next)
      modifies this`headerNumber, headers, input`readIndex
      ensures Valid() && input.Valid() && input.readIndex > old(input.readIndex)
      ensures Fields() == old(Fields()) + [h] && input.Readable() == next
    {
      assert text[0..] == text;
      var colon := Search(input, 0, ": ", text);
      var key := Copy(input, 0, colon);
      var value := Copy(input, colon + 2, end);
      AddHeader(key, value);
      Skip(input, end + 2);
    }

    /** One round of the header loop: reads a header line, or finds the empty line and moves nothing. */
    method ReadNextHeader(input: Buffer, ghost text: string, ghost done: seq<Header>, ghost all: (seq<Header>, string))
      returns (found: bool)
      requires Valid() && input.Valid() && input.Readable() == text && Fields() == done && StillToRead(text, done, all)
      modifies this`headerNumber, headers, input`readIndex
      ensures Valid() && input.Valid() && StillToRead(input.Readable(), Fields(), all)
      ensures found ==> input.readIndex > old(input.readIndex)
      ensures !found ==> all == (Fields(), input.Readable())
    {
      LineAhead(text, done, all);
      var end := FindLineEnd(input);
      if end == 0 { return false; }
      ghost var _, colon, h, next := NextHeader(text, done, all);
      ReadHeader(input, text, end, colon, h, next);
      return true;
    }

    /** Reads header lines until an empty one, at which the cursor is left. */
    method ReadHeaders(input: Buffer, ghost text: string, ghost result: (seq<Header>, string)) returns (number: nat)
      requires Valid() && input.Valid() && status == AtHeader && headerNumber == 0 && input.Readable() == text
      requires ParseHeaders(text) == Some(result) && |result.0| <= HEADER_CAPACITY
      modifies this`headerNumber, this`status, headers, input`readIndex
      ensures Valid() && input.Valid() && number == headerNumber && status == AtBody
      ensures result == (Fields(), input.Readable())
    {
      FirstHeader(text, result);
      while status == AtHeader
        invariant Valid() && input.Valid() && (status == AtHeader || status == AtBody)
        invariant StillToRead(input.Readable(), Fields(), result)
        invariant status == AtBody ==> result == (Fields(), input.Readable())
        decreases input.ReadableSize(), status == AtHeader
      {
        var found := ReadNextHeader(input, input.Readable(), Fields(), result);
        if !found {
          status := AtBody;
          break;
        }
      }
      number := headerNumber;
    }

    /** The first state of http_request_parse. */
    method PassStartLine(input: Buffer, ghost text: string, ghost space: nat, ghost space2: nat, ghost start: Start)
      requires Valid() && input.Valid() && input.Readable() == text && StartIs(text, space, space2, start) && start.size > 0
      modifies this`verb, this`url, this`version, this`status, input`readIndex
      ensures input.Valid() && input.Readable() == text[start.size + 2..] && status == AtHeader
      ensures verb == start.first && url == start.second && version == start.third
    {
      status := AtStart;
      var size := ReadStartLine(input, text, space, space2, start);
      if size != 0 {
        Skip(input, size + 2);
        status := AtHeader;
      }
    }

    /** The other states, on a text whose headers are known. */
    method PassHeaders(input: Buffer, ghost behind: string, ghost rest: (seq<Header>, string))
      requires Valid() && input.Valid() && status == AtHeader && headerNumber == 0 && input.Readable() == behind
      requires ParseHeaders(behind) == Some(rest) && |rest.0| <= HEADER_CAPACITY && |rest.1| >= 2
      modifies this`headerNumber, this`status, headers, input`readIndex
      ensures Valid() && input.Valid() && status == Done && Fields() == rest.0
      ensures input.Readable() == if rest.0 == [] then rest.1 else rest.1[2..]
    {
      var number := ReadHeaders(input, behind, rest);
      if number > 0 {
        Skip(input, 2);
      }
      status := Done;
    }

    /** http_request_parse, for a complete message at the cursor. */
    method HttpRequestParse(input: Buffer)
      requires Valid() && input.Valid() && headerNumber == 0
      requires Parse(input.Readable()).Some? && Fits(Parse(input.Readable()).value.0)
      modifies this`verb, this`url, this`version, this`headerNumber, this`status, headers, input`readIndex
      ensures Valid() && input.Valid() && status == Done
      ensures var r := Parse(old(input.Readable())).value; var m := r.0;
        && verb == m.first && url == m.second && version == m.third
        && headerNumber == |m.headers| && headers[..headerNumber] == m.headers
        && input.data[input.readIndex..input.writeIndex] == r.1
    {
      ghost var text := input.Readable();
      ghost var start, behind, rest := Parts(text);
      ghost var space, space2 := StartAhead(text);
      PassStartLine(input, text, space, space2, start);
      PassHeaders(input, behind, rest);
    }
  }
}
