/**
  The text of HTTP/1.1 messages without a body (section 2.1, 4 and 5 of RFC 9112) and how
  utils/http_request.c reads it, as functions on text.
*/
module HttpMessages {
  import opened Basics
  import opened Buffers

  /** How many headers a request or a response holds. */
  const HEADER_CAPACITY := 128

  datatype Header = Header(key: string, value: string)

  /** Three words and header lines; for a response the words are version, status code and status message. */
  datatype Message = Message(first: string, second: string, third: string, headers: seq<Header>)

  function HeaderLine(h: Header): string { h.key + ": " + h.value + CRLF }

  function HeaderLines(hs: seq<Header>): string {
    if hs == [] then [] else HeaderLine(hs[0]) + HeaderLines(hs[1..])
  }

  function StartLine(m: Message): string { m.first + " " + m.second + " " + m.third + CRLF }

  function Format(m: Message): string { StartLine(m) + HeaderLines(m.headers) + CRLF }

  function FormatAll(ms: seq<Message>): string {
    if ms == [] then [] else Format(ms[0]) + FormatAll(ms[1..])
  }

  // ----- the parser

  datatype Start = Start(first: string, second: string, third: string, size: nat)

  /** parse_start_line; None where the code would run past the line or the text. */
  function ParseStart(text: string): (r: Option<Start>)
    ensures r.Some? ==> 2 <= r.value.size <= |text| - 2
  {
    var end, space := StrStr(text, CRLF), StrStr(text, " ");
    if end == None || space == None then None
    else CutStart(text, end.value, space.value, StrStr(text[space.value + 1..], " "))
  }

  /** The three words, given the end of the line and the two spaces; the second is counted from the second word. */
  function CutStart(text: string, end: nat, space: nat, space2: Option<nat>): Option<Start> {
    if space2 == None || space + space2.value + 2 > end || end > |text| then None
    else
      var url := space + 1;
      Some(Start(text[..space], text[url..url + space2.value], text[url + space2.value + 1..end], end))
  }

  /** The header loop of parse_headers: the headers, and the text from the empty line on. */
  function ParseHeaders(text: string): (r: Option<(seq<Header>, string)>)
    ensures r.Some? ==> |r.value.1| >= 2
    decreases |text|
  {
    var end := StrStr(text, CRLF);
    if end == None then None
    else if end.value == 0 then Some(([], text))
    else
      var colon := StrStr(text, ": ");
      if colon == None || colon.value + 2 > end.value then None
      else
        match ParseHeaders(text[end.value + 2..])
        case None => None
        case Some(r) => Some(([Header(text[..colon.value], text[colon.value + 2..end.value])] + r.0, r.1))
  }

  /** http_request_parse: the message, and the text it leaves unread. The final CRLF is skipped after a header only. */
  function Parse(text: string): Option<(Message, string)> {
    match ParseStart(text)
    case None => None
    case Some(s) =>
      match ParseHeaders(text[s.size + 2..])
      case None => None
      case Some(r) => Some((Message(s.first, s.second, s.third, r.0), if r.0 == [] then r.1 else r.1[2..]))
  }

  // ----- round trip

  lemma {:induction false} FoundAfter(a: string, pattern: string, b: string)
    requires pattern != [] && pattern[0] !in a && '\0' !in a
    ensures StrStr(a + (pattern + b), pattern) == Some(|a|)
  {
    var s := a + (pattern + b);
    if a == [] {
      assert s[..|pattern|] == pattern;
    } else {
      assert s[1..] == a[1..] + (pattern + b);
      assert s[..|pattern|][0] == a[0];
      FoundAfter(a[1..], pattern, b);
    }
  }

  /** The characters that may not appear in a word of the start line. */
  predicate CleanWord(s: string) { ' ' !in s && CleanText(s) }

  predicate CleanText(s: string) { '\r' !in s && '\0' !in s }

  predicate CleanHeader(h: Header) { CleanText(h.key) && ':' !in h.key && CleanText(h.value) }

  ghost predicate Clean(m: Message) {
    && CleanWord(m.first) && CleanWord(m.second) && CleanText(m.third)
    && m.headers != [] && forall i :: 0 <= i < |m.headers| ==> CleanHeader(m.headers[i])
  }

  lemma FoundIn(text: string, a: string, pattern: string, b: string)
    requires text == a + (pattern + b) && pattern != [] && pattern[0] !in a && '\0' !in a
    ensures StrStr(text, pattern) == Some(|a|)
  {
    FoundAfter(a, pattern, b);
  }

  lemma Regroup(a: string, b: string, c: string, d: string, e: string, rest: string)
    ensures a + (b + (c + (d + (e + rest)))) == a + b + c + d + e + rest
    ensures a + (b + (c + rest)) == a + b + c + rest
  {
  }

  /** text is a start line and what follows, cut after the first word. */
  ghost predicate IsStartOf(text: string, f: string, afterFirst: string, s: string, t: string, rest: string) {
    && text == f + (" " + afterFirst) && afterFirst == s + (" " + (t + (CRLF + rest)))
    && CleanWord(f) && CleanWord(s) && CleanText(t)
  }

  lemma StartSlices(text: string, f: string, afterFirst: string, s: string, t: string, rest: string)
    requires IsStartOf(text, f, afterFirst, s, t, rest)
    ensures var url := |f| + 1; var version := url + |s| + 1; var end := version + |t|;
      && end + 2 <= |text| && text[..|f|] == f && text[url..] == afterFirst
      && text[url..url + |s|] == s && text[version..end] == t && text[end + 2..] == rest
  {
  }

  lemma StartFound(text: string, f: string, afterFirst: string, s: string, t: string, rest: string)
    requires IsStartOf(text, f, afterFirst, s, t, rest)
    ensures StrStr(text, " ") == Some(|f|) && StrStr(afterFirst, " ") == Some(|s|)
    ensures StrStr(text, CRLF) == Some(|f| + 1 + |s| + 1 + |t|)
  {
    FoundIn(text, f, " ", afterFirst);
    FoundIn(afterFirst, s, " ", t + (CRLF + rest));
    Regroup(f, " ", s, " ", t, CRLF + rest);
    LineEnd(text, f + " " + s + " " + t, rest);
  }

  lemma LineEnd(text: string, line: string, rest: string)
    requires text == line + (CRLF + rest) && CleanText(line)
    ensures StrStr(text, CRLF) == Some(|line|)
  {
    FoundIn(text, line, CRLF, rest);
  }

  lemma StartGrouped(m: Message, rest: string)
    ensures StartLine(m) + rest == m.first + (" " + (m.second + (" " + (m.third + (CRLF + rest)))))
  {
    Regroup(m.first, " ", m.second, " ", m.third, CRLF + rest);
  }

  lemma CutStartIs(text: string, f: string, afterFirst: string, s: string, t: string, rest: string)
    requires IsStartOf(text, f, afterFirst, s, t, rest)
    ensures var end := |f| + 1 + |s| + 1 + |t|;
      CutStart(text, end, |f|, Some(|s|)) == Some(Start(f, s, t, end)) && end <= |text| - 2
  {
    StartSlices(text, f, afterFirst, s, t, rest);
  }

  lemma ParseStartIs(text: string, f: string, afterFirst: string, s: string, t: string, rest: string)
    requires IsStartOf(text, f, afterFirst, s, t, rest)
    ensures ParseStart(text) == Some(Start(f, s, t, |f| + 1 + |s| + 1 + |t|))
  {
    StartFound(text, f, afterFirst, s, t, rest);
    CutStartIs(text, f, afterFirst, s, t, rest);
    assert text[|f| + 1..] == afterFirst;
  }

  lemma StartRoundTrip(m: Message, rest: string)
    requires CleanWord(m.first) && CleanWord(m.second) && CleanText(m.third)
    ensures ParseStart(StartLine(m) + rest) == Some(Start(m.first, m.second, m.third, |StartLine(m)| - 2))
  {
    var text, afterFirst := StartLine(m) + rest, m.second + (" " + (m.third + (CRLF + rest)));
    StartGrouped(m, rest);
    ParseStartIs(text, m.first, afterFirst, m.second, m.third, rest);
  }

  lemma HeaderGrouped(h: Header, rest: string)
    ensures HeaderLine(h) + rest == h.key + (": " + (h.value + (CRLF + rest)))
    ensures HeaderLine(h) + rest == h.key + ": " + h.value + (CRLF + rest)
  {
    Regroup(h.key, ": ", h.value, "", "", CRLF + rest);
  }

  lemma HeaderFound(text: string, h: Header, rest: string)
    requires text == HeaderLine(h) + rest && CleanHeader(h)
    ensures StrStr(text, CRLF) == Some(|h.key| + 2 + |h.value|) && StrStr(text, ": ") == Some(|h.key|)
  {
    HeaderGrouped(h, rest);
    LineEnd(text, h.key + ": " + h.value, rest);
    FoundIn(text, h.key, ": ", h.value + (CRLF + rest));
  }

  lemma HeaderSlices(text: string, h: Header, rest: string)
    requires text == HeaderLine(h) + rest
    ensures var end := |h.key| + 2 + |h.value|;
      text[..|h.key|] == h.key && text[|h.key| + 2..end] == h.value && text[end + 2..] == rest
  {
  }

  lemma ParseOneHeader(text: string, h: Header, next: string, hs: seq<Header>, after: string)
    requires text == HeaderLine(h) + next && CleanHeader(h) && ParseHeaders(next) == Some((hs, after))
    ensures ParseHeaders(text) == Some(([h] + hs, after))
  {
    HeaderFound(text, h, next);
    HeaderSlices(text, h, next);
  }

  lemma NoHeaders(text: string, rest: string)
    requires text == CRLF + rest
    ensures ParseHeaders(text) == Some(([], text))
  {
    FoundIn(text, [], CRLF, rest);
  }

  lemma HeaderLinesGrouped(hs: seq<Header>, rest: string)
    requires hs != []
    ensures HeaderLines(hs) + CRLF + rest == HeaderLine(hs[0]) + (HeaderLines(hs[1..]) + CRLF + rest)
  {
  }

  lemma {:induction false} HeadersRoundTrip(hs: seq<Header>, rest: string)
    requires forall i :: 0 <= i < |hs| ==> CleanHeader(hs[i])
    ensures ParseHeaders(HeaderLines(hs) + CRLF + rest) == Some((hs, CRLF + rest))
  {
    if hs == [] {
      assert HeaderLines(hs) + CRLF + rest == CRLF + rest;
      NoHeaders(CRLF + rest, rest);
    } else {
      var text, next := HeaderLines(hs) + CRLF + rest, HeaderLines(hs[1..]) + CRLF + rest;
      HeaderLinesGrouped(hs, rest);
      HeadersRoundTrip(hs[1..], rest);
      ParseOneHeader(text, hs[0], next, hs[1..], CRLF + rest);
      assert [hs[0]] + hs[1..] == hs;
    }
  }

  /**
    Reading back what was formatted gives the same words and headers, in order, and stops at the first
    character after the message.
  */
  lemma FormatParseRoundTrip(m: Message, rest: string)
    requires Clean(m)
    ensures Parse(Format(m) + rest) == Some((m, rest))
  {
    var following := HeaderLines(m.headers) + CRLF + rest;
    assert Format(m) + rest == StartLine(m) + following;
    StartRoundTrip(m, following);
    assert (StartLine(m) + following)[|StartLine(m)|..] == following;
    HeadersRoundTrip(m.headers, rest);
    assert (CRLF + rest)[2..] == rest;
  }

  /** Messages read one after the other from one text. */
  function ParseMany(text: string, n: nat): Option<(seq<Message>, string)>
    decreases n
  {
    if n == 0 then Some(([], text))
    else
      match Parse(text)
      case None => None
      case Some(r) =>
        match ParseMany(r.1, n - 1)
        case None => None
        case Some(q) => Some(([r.0] + q.0, q.1))
  }

  /** So does any concatenation of messages. */
  lemma {:induction false} PipelineRoundTrip(ms: seq<Message>, rest: string)
    requires forall i :: 0 <= i < |ms| ==> Clean(ms[i])
    ensures ParseMany(FormatAll(ms) + rest, |ms|) == Some((ms, rest))
    decreases |ms|
  {
    if ms == [] {
      assert FormatAll(ms) + rest == rest;
    } else {
      var following := FormatAll(ms[1..]) + rest;
      var text := FormatAll(ms) + rest;
      FirstOfAll(ms, text, rest, following);
      PipelineRoundTrip(ms[1..], rest);
      ParseManyStep(text, ms[0], following, ms[1..], rest);
      assert [ms[0]] + ms[1..] == ms;
    }
  }

  /** The first of several messages is read, and the others are left. */
  lemma {:induction false} FirstOfAll(ms: seq<Message>, text: string, rest: string, following: string)
    requires ms != [] && Clean(ms[0]) && text == FormatAll(ms) + rest && following == FormatAll(ms[1..]) + rest
    ensures Parse(text) == Some((ms[0], following))
  {
    Regroup(Format(ms[0]), FormatAll(ms[1..]), "", "", "", rest);
    assert text == Format(ms[0]) + following;
    FormatParseRoundTrip(ms[0], following);
  }

  lemma ParseManyStep(text: string, m: Message, next: string, ms: seq<Message>, rest: string)
    requires Parse(text) == Some((m, next)) && ParseMany(next, |ms|) == Some((ms, rest))
    ensures ParseMany(text, |ms| + 1) == Some(([m] + ms, rest))
  {
  }

  /** A message and the body behind it, whose size the reader knows. */
  datatype Reply = Reply(message: Message, body: string)

  function FormatReplies(rs: seq<Reply>): string {
    if rs == [] then [] else Format(rs[0].message) + rs[0].body + FormatReplies(rs[1..])
  }

  function Sizes(rs: seq<Reply>): seq<nat> {
    if rs == [] then [] else [|rs[0].body|] + Sizes(rs[1..])
  }

  function ParseReplies(text: string, sizes: seq<nat>): Option<(seq<Reply>, string)>
    decreases |sizes|
  {
    if sizes == [] then Some(([], text))
    else
      match Parse(text)
      case None => None
      case Some(r) => ParseBody(r.0, r.1, sizes)
  }

  function ParseBody(m: Message, text: string, sizes: seq<nat>): Option<(seq<Reply>, string)>
    requires sizes != []
    decreases |sizes|, -1
  {
    if |text| < sizes[0] then None
    else
      match ParseReplies(text[sizes[0]..], sizes[1..])
      case None => None
      case Some(q) => Some(([Reply(m, text[..sizes[0]])] + q.0, q.1))
  }

  /** And any concatenation of messages with bodies of known sizes. */
  lemma {:induction false} RepliesRoundTrip(rs: seq<Reply>, rest: string)
    requires forall i :: 0 <= i < |rs| ==> Clean(rs[i].message)
    ensures ParseReplies(FormatReplies(rs) + rest, Sizes(rs)) == Some((rs, rest))
    decreases |rs|
  {
    if rs == [] {
      assert FormatReplies(rs) + rest == rest;
    } else {
      var following := FormatReplies(rs[1..]) + rest;
      var text := FormatReplies(rs) + rest;
      FirstReply(rs, text, rest, following);
      RepliesRoundTrip(rs[1..], rest);
      ParseRepliesStep(text, rs[0], following, rs[1..], rest);
      assert [rs[0]] + rs[1..] == rs;
    }
  }

  lemma {:induction false} FirstReply(rs: seq<Reply>, text: string, rest: string, following: string)
    requires rs != [] && Clean(rs[0].message) && text == FormatReplies(rs) + rest && following == FormatReplies(rs[1..]) + rest
    ensures Parse(text) == Some((rs[0].message, rs[0].body + following))
  {
    Regroup(Format(rs[0].message), rs[0].body, FormatReplies(rs[1..]), "", "", rest);
    FormatParseRoundTrip(rs[0].message, rs[0].body + following);
  }

  lemma ParseRepliesStep(text: string, r: Reply, next: string, rs: seq<Reply>, rest: string)
    requires Parse(text) == Some((r.message, r.body + next)) && ParseReplies(next, Sizes(rs)) == Some((rs, rest))
    ensures ParseReplies(text, [|r.body|] + Sizes(rs)) == Some(([r] + rs, rest))
  {
    var sizes := [|r.body|] + Sizes(rs);
    assert sizes[1..] == Sizes(rs);
    assert (r.body + next)[|r.body|..] == next && (r.body + next)[..|r.body|] == r.body;
  }

  /** What is found in a text is found at the same place when more text follows. */
  lemma {:induction false} StrStrExtends(a: string, b: string, pattern: string)
    requires StrStr(a, pattern).Some?
    ensures StrStr(a + b, pattern) == StrStr(a, pattern)
  {
    if |pattern| <= |a| && a[..|pattern|] == pattern {
      assert (a + b)[..|pattern|] == pattern;
    } else {
      assert (a + b)[1..] == a[1..] + b;
      StrStrExtends(a[1..], b, pattern);
      assert |pattern| <= |a|;
      assert (a + b)[..|pattern|] == a[..|pattern|];
    }
  }

  // ----- decimal numbers

  function Digit(d: nat): char
    requires d < 10
  {
    '0' + d as char
  }

  /** %d of a non-negative number */
  function Decimal(n: nat): (s: string)
    ensures s != [] && forall i :: 0 <= i < |s| ==> '0' <= s[i] <= '9'
  {
    if n < 10 then [Digit(n)] else Decimal(n / 10) + [Digit(n % 10)]
  }

  function Value(s: string): nat
    requires forall i :: 0 <= i < |s| ==> '0' <= s[i] <= '9'
  {
    if s == [] then 0 else 10 * Value(s[..|s| - 1]) + (s[|s| - 1] as int - '0' as int)
  }

  /** The status code can be read back from its digits. */
  lemma {:induction false} DecimalRoundTrip(n: nat)
    ensures Value(Decimal(n)) == n
  {
    if n >= 10 {
      DecimalRoundTrip(n / 10);
      assert Decimal(n)[..|Decimal(n)| - 1] == Decimal(n / 10);
    } else {
      assert Decimal(n)[..0] == [];
    }
  }
}
