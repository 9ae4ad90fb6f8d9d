/**
  cpplint's bracket matchers over several lines, CloseExpression and ReverseCloseExpression, and the matcher of
  _GetTextInside (build_support/cpplint.py).
*/
module Expressions {
  import opened Basics
  import opened Dyck
  import opened Brackets

  function Flat(lines: seq<string>): string {
    if lines == [] then [] else Flat(lines[..|lines| - 1]) + lines[|lines| - 1]
  }

  /** Where a line starts in the joined text. */
  function Off(lines: seq<string>, l: nat): nat
    requires l <= |lines|
  {
    |Flat(lines[..l])|
  }

  lemma {:induction false} FlatPrefix(lines: seq<string>, l: nat)
    requires l <= |lines|
    ensures Off(lines, l) <= |Flat(lines)| && Flat(lines)[..Off(lines, l)] == Flat(lines[..l])
    decreases |lines|
  {
    if l == |lines| {
      assert lines[..l] == lines;
    } else {
      var front := lines[..|lines| - 1];
      FlatPrefix(front, l);
      assert front[..l] == lines[..l];
    }
  }

  /** The joined text, cut at the start and the end of one line. */
  lemma LineInText(lines: seq<string>, l: nat)
    requires l < |lines|
    ensures Off(lines, l + 1) == Off(lines, l) + |lines[l]| <= |Flat(lines)|
    ensures Flat(lines)[Off(lines, l)..] == lines[l] + Flat(lines)[Off(lines, l + 1)..]
    ensures Flat(lines)[Off(lines, l)..Off(lines, l + 1)] == lines[l]
  {
    FlatPrefix(lines, l);
    FlatPrefix(lines, l + 1);
    assert lines[..l + 1][..l] == lines[..l];
    CutTwice(Flat(lines), Flat(lines[..l]), lines[l]);
  }

  lemma CutTwice(text: string, front: string, middle: string)
    requires |front| + |middle| <= |text| && text[..|front| + |middle|] == front + middle
    ensures text[|front|..] == middle + text[|front| + |middle|..]
    ensures text[|front|..|front| + |middle|] == middle
  {
    assert text == front + middle + text[|front| + |middle|..];
  }

  /** The bracket at (l, p) and the one at (m, q) match in the joined text. */
  ghost predicate MatchedAt(lines: seq<string>, l: int, p: int, m: int, q: int) {
    && 0 <= l < |lines| && 0 <= p < |lines[l]| && 0 <= m < |lines| && 0 <= q < |lines[m]|
    && Matched(Flat(lines), Off(lines, l) + p, Off(lines, m) + q)
  }

  lemma {:induction false} PositionUnique(lines: seq<string>, l: nat, p: nat, m: nat, q: nat)
    requires l < |lines| && p < |lines[l]| && m < |lines| && q < |lines[m]|
    requires Off(lines, l) + p == Off(lines, m) + q
    ensures l == m && p == q
  {
    if l < m {
      OffMonotone(lines, l + 1, m);
      LineInText(lines, l);
    } else if m < l {
      OffMonotone(lines, m + 1, l);
      LineInText(lines, m);
    }
  }

  lemma {:induction false} OffMonotone(lines: seq<string>, a: nat, b: nat)
    requires a <= b <= |lines|
    ensures Off(lines, a) <= Off(lines, b)
    decreases b
  {
    if a < b {
      OffMonotone(lines, a, b - 1);
      LineInText(lines, b - 1);
    }
  }

  lemma {:induction false} PositionOf(lines: seq<string>, x: nat) returns (l: nat, p: nat)
    requires x < |Flat(lines)|
    ensures l < |lines| && p < |lines[l]| && x == Off(lines, l) + p
  {
    var n := |lines| - 1;
    assert lines[..|lines|] == lines;
    if x >= Off(lines, n) {
      return n, x - Off(lines, n);
    }
    l, p := PositionOf(lines[..n], x);
    assert lines[..n][..l] == lines[..l];
  }

  lemma AheadSegment(text: string, a: nat, segment: string, open: string, start: int, goal: Scan)
    requires Ahead(text, a, open, start, goal) && a + |segment| <= |text|
    requires text[a..] == segment + text[a + |segment|..]
    ensures var r := Plain(segment, open);
      && (r.Found? ==> goal == Found(a + r.end - start))
      && (r.Broken? ==> goal == Broken)
      && (r.Unfinished? ==> Ahead(text, a + |segment|, r.stack, start, goal))
  {
    PlainConcat(segment, text[a + |segment|..], open);
  }

  /** A forward search between two lines: given up, or about to read `text` from `at`. */
  ghost predicate Searching(text: string, at: int, rest: Option<string>, start: int, goal: Scan) {
    match rest
    case None => goal == Broken
    case Some(stack) => Firm(stack, '<') && Ahead(text, at, Erase(stack, '<'), start, goal)
  }

  lemma AfterSegment(text: string, a: nat, segment: string, open: string, start: int, goal: Scan,
                     from: int, end: int, rest: Option<string>)
    requires Ahead(text, a, open, start, goal) && a + |segment| <= |text|
    requires text[a..] == segment + text[a + |segment|..]
    requires ForwardResult(Plain(segment, open), from, end, rest) && from >= 0
    ensures end > -1 ==> goal == Found(a + end - from - start)
    ensures end == -1 ==> Searching(text, a + |segment|, rest, start, goal)
  {
    AheadSegment(text, a, segment, open, start, goal);
  }

  lemma FirstSegment(lines: seq<string>, l: nat, p: nat)
    requires l < |lines| && p < |lines[l]|
    ensures var text, o := Flat(lines), Off(lines, l) + p;
      && o < |text| && text[o] == lines[l][p] && o + |lines[l][p..]| == Off(lines, l + 1) <= |text|
      && text[o..] == lines[l][p..] + text[Off(lines, l + 1)..]
  {
    LineInText(lines, l);
    var text, a, rest := Flat(lines), Off(lines, l), Flat(lines)[Off(lines, l + 1)..];
    DropDrop(text, a, p);
    assert (lines[l] + rest)[p..] == lines[l][p..] + rest;
    assert text[a..][p] == lines[l][p];
  }

  /** What the plain matcher finds in the joined text, in terms of lines and columns. */
  function Goal(lines: seq<string>, l: nat, p: nat): Scan
    requires l < |lines|
  {
    if Off(lines, l) + p <= |Flat(lines)| then Plain(Flat(lines)[Off(lines, l) + p..], []) else Broken
  }

  ghost predicate Unmatched(lines: seq<string>, l: int, p: int) { forall m, q :: !MatchedAt(lines, l, p, m, q) }

  /** What CloseExpression may answer for the opener at (l, p): the place just after its partner, or -1. */
  ghost predicate ForwardAnswer(lines: seq<string>, l: int, p: int, m: int, end: int) {
    if end == -1 then Unmatched(lines, l, p) else MatchedAt(lines, l, p, m, end - 1)
  }

  lemma GoalFound(lines: seq<string>, l: nat, p: nat, m: nat, end: int)
    requires l < |lines| && p < |lines[l]| && IsOpener(lines[l][p]) && m < |lines| && 0 < end <= |lines[m]|
    requires Goal(lines, l, p) == Found(Off(lines, m) + end - (Off(lines, l) + p))
    ensures ForwardAnswer(lines, l, p, m, end)
  {
    FirstSegment(lines, l, p);
    PlainFindsMatch(Flat(lines), Off(lines, l) + p, Off(lines, m) + end - 1);
  }

  lemma GoalMissed(lines: seq<string>, l: nat, p: nat, m: int)
    requires l < |lines| && p < |lines[l]| && IsOpener(lines[l][p]) && !Goal(lines, l, p).Found?
    ensures ForwardAnswer(lines, l, p, m, -1)
  {
    FirstSegment(lines, l, p);
    forall m, q ensures !MatchedAt(lines, l, p, m, q) {
      if MatchedAt(lines, l, p, m, q) {
        PlainFindsMatch(Flat(lines), Off(lines, l) + p, Off(lines, m) + q);
      }
    }
  }

  /** Match(r'<[<=]', line[pos:]) */
  predicate ShiftOrCompare(line: string, pos: nat) {
    pos + 1 < |line| && line[pos] == '<' && (line[pos + 1] == '<' || line[pos + 1] == '=')
  }

  /** Returns (line, NumLines, -1) when the bracket is never closed. */
  method CloseExpression(lines: seq<string>, linenum0: nat, pos: nat) returns (line: string, linenum: nat, end: int)
    requires linenum0 < |lines| && pos < |lines[linenum0]|
    ensures end == -1 ==> linenum == |lines|
    ensures end != -1 ==> linenum0 <= linenum < |lines| && 0 < end <= |lines[linenum]| && line == lines[linenum]
    ensures var c := lines[linenum0][pos];
      !IsOpener(c) && (c == '<' ==> ShiftOrCompare(lines[linenum0], pos)) ==> end == -1
    ensures IsOpener(lines[linenum0][pos]) ==> ForwardAnswer(lines, linenum0, pos, linenum, end)
  {
    line := lines[linenum0];
    linenum := linenum0;
    if (!IsOpener(line[pos]) && line[pos] != '<') || ShiftOrCompare(line, pos) {
      return line, |lines|, -1;
    }
    ghost var anchored := IsOpener(line[pos]);
    var stack: Option<string>;
    end, stack := FindEndOfExpressionInLine(line, pos, []);
    if anchored { FirstLine(lines, linenum, pos, end, stack); }
    if end > -1 { return; }
    while stack.Some? && stack.value != [] && linenum < |lines| - 1
      invariant linenum0 <= linenum < |lines| && line == lines[linenum] && end == -1
      invariant anchored ==> SearchingFrom(lines, linenum0, pos, linenum + 1, stack)
      decreases |lines| - linenum
    {
      linenum := linenum + 1;
      line := lines[linenum];
      ghost var before := stack.value;
      end, stack := FindEndOfExpressionInLine(line, 0, stack.value);
      if anchored { NextLine(lines, linenum0, pos, linenum, before, end, stack); }
      if end > -1 { return; }
    }
    if anchored { NoLineLeft(lines, linenum0, pos, linenum + 1, stack); }
    return line, |lines|, -1;
  }

  /** The search started at (l, p) has read everything before line `next`. */
  ghost predicate SearchingFrom(lines: seq<string>, l: nat, p: nat, next: nat, rest: Option<string>) {
    && l < |lines| && p < |lines[l]| && IsOpener(lines[l][p]) && next <= |lines|
    && Searching(Flat(lines), Off(lines, next), rest, Off(lines, l) + p, Goal(lines, l, p))
    && (rest.Some? ==> Firm(rest.value, '<'))
  }

  lemma FirstLine(lines: seq<string>, l: nat, p: nat, end: int, rest: Option<string>)
    requires l < |lines| && p < |lines[l]| && IsOpener(lines[l][p]) && end <= |lines[l]|
    requires ForwardResult(Plain(lines[l][p..], Erase([], '<')), p, end, rest)
    ensures end > -1 ==> ForwardAnswer(lines, l, p, l, end)
    ensures end == -1 ==> SearchingFrom(lines, l, p, l + 1, rest)
  {
    FirstSegment(lines, l, p);
    AfterSegment(Flat(lines), Off(lines, l) + p, lines[l][p..], [], Off(lines, l) + p, Goal(lines, l, p), p, end, rest);
    if end > -1 { GoalFound(lines, l, p, l, end); }
  }

  lemma NextLine(lines: seq<string>, l: nat, p: nat, m: nat, before: string, end: int, rest: Option<string>)
    requires m < |lines| && SearchingFrom(lines, l, p, m, Some(before)) && end <= |lines[m]|
    requires ForwardResult(Plain(lines[m][0..], Erase(before, '<')), 0, end, rest)
    ensures end > -1 ==> ForwardAnswer(lines, l, p, m, end)
    ensures end == -1 ==> SearchingFrom(lines, l, p, m + 1, rest)
  {
    LineInText(lines, m);
    assert lines[m][0..] == lines[m];
    AfterSegment(Flat(lines), Off(lines, m), lines[m], Erase(before, '<'), Off(lines, l) + p, Goal(lines, l, p), 0, end, rest);
    if end > -1 { GoalFound(lines, l, p, m, end); }
  }

  lemma NoLineLeft(lines: seq<string>, l: nat, p: nat, next: nat, rest: Option<string>)
    requires SearchingFrom(lines, l, p, next, rest) && (rest.Some? ==> next == |lines|)
    ensures ForwardAnswer(lines, l, p, |lines|, -1)
  {
    assert lines[..|lines|] == lines;
    GoalMissed(lines, l, p, |lines|);
  }

  // ----- the backward search

  /** The mirror of text[..n], cut where text[a..b] begins and ends. */
  lemma MirrorSlice(text: string, a: nat, b: nat, n: nat)
    requires a <= b <= n <= |text|
    ensures Mirror(text[..n])[n - b..] == Mirror(text[a..b]) + Mirror(text[..n])[n - a..]
  {
  }

  /** A backward search from position `c`: given up, or about to read back from text[b - 1]. */
  ghost predicate SearchingBack(text: string, c: int, b: int, rest: Option<string>, goal: Scan) {
    && 0 <= b <= c + 1 <= |text|
    && match rest
       case None => goal == Broken
       case Some(stack) => Firm(stack, '>') && Ahead(Mirror(text[..c + 1]), c + 1 - b, OpenMirrored(stack), 0, goal)
  }

  lemma AfterSegmentBack(text: string, c: int, a: nat, b: nat, stack: string, goal: Scan, start: int, rest: Option<string>)
    requires a <= b <= c + 1 <= |text|
    requires Ahead(Mirror(text[..c + 1]), c + 1 - b, OpenMirrored(stack), 0, goal)
    requires BackwardResult(Plain(Mirror(text[a..b]), OpenMirrored(stack)), b - a - 1, start, rest)
    ensures start > -1 ==> goal == Found(c + 1 - (a + start))
    ensures start == -1 ==> SearchingBack(text, c, a, rest, goal)
  {
    var m, at := Mirror(text[..c + 1]), c + 1 - b;
    MirrorSlice(text, a, b, c + 1);
    assert at + |Mirror(text[a..b])| == c + 1 - a;
    AheadSegment(m, at, Mirror(text[a..b]), OpenMirrored(stack), 0, goal);
  }

  function GoalBack(lines: seq<string>, l: nat, p: nat): Scan
    requires l < |lines|
  {
    if Off(lines, l) + p < |Flat(lines)| then Plain(Mirror(Flat(lines)[..Off(lines, l) + p + 1]), []) else Broken
  }

  /** What ReverseCloseExpression may answer for the closer at (m, q): the place of its partner, or -1. */
  ghost predicate BackwardAnswer(lines: seq<string>, m: int, q: int, l: int, start: int) {
    if start == -1 then forall l', p :: !MatchedAt(lines, l', p, m, q) else MatchedAt(lines, l, start, m, q)
  }

  lemma GoalBackFound(lines: seq<string>, m: nat, q: nat, l: nat, start: int)
    requires m < |lines| && q < |lines[m]| && IsCloser(lines[m][q]) && l < |lines| && 0 <= start < |lines[l]|
    requires GoalBack(lines, m, q) == Found(Off(lines, m) + q + 1 - (Off(lines, l) + start))
    ensures BackwardAnswer(lines, m, q, l, start)
  {
    FirstSegment(lines, m, q);
    BackwardFindsMatch(Flat(lines), Off(lines, l) + start, Off(lines, m) + q);
  }

  lemma GoalBackMissed(lines: seq<string>, m: nat, q: nat, l: int)
    requires m < |lines| && q < |lines[m]| && IsCloser(lines[m][q]) && !GoalBack(lines, m, q).Found?
    ensures BackwardAnswer(lines, m, q, l, -1)
  {
    FirstSegment(lines, m, q);
    forall l', p ensures !MatchedAt(lines, l', p, m, q) {
      if MatchedAt(lines, l', p, m, q) {
        BackwardFindsMatch(Flat(lines), Off(lines, l') + p, Off(lines, m) + q);
      }
    }
  }

  /** The search back from (m, q) has read everything from line `next` on. */
  ghost predicate SearchingBackFrom(lines: seq<string>, m: nat, q: nat, next: nat, rest: Option<string>) {
    && m < |lines| && q < |lines[m]| && IsCloser(lines[m][q]) && next <= m
    && SearchingBack(Flat(lines), Off(lines, m) + q, Off(lines, next), rest, GoalBack(lines, m, q))
  }

  lemma LastLine(lines: seq<string>, m: nat, q: nat, start: int, rest: Option<string>)
    requires m < |lines| && q < |lines[m]| && IsCloser(lines[m][q]) && start <= q
    requires BackwardResult(Plain(Mirror(lines[m][..q + 1]), OpenMirrored([])), q, start, rest)
    ensures start > -1 ==> BackwardAnswer(lines, m, q, m, start)
    ensures start == -1 ==> SearchingBackFrom(lines, m, q, m, rest)
  {
    FirstSegment(lines, m, q);
    LineInText(lines, m);
    var text, a, c := Flat(lines), Off(lines, m), Off(lines, m) + q;
    SliceSlice(text, a, Off(lines, m + 1), 0, q + 1);
    var mirror := Mirror(text[..c + 1]);
    assert mirror[0..] == mirror && OpenMirrored([]) == [];
    AfterSegmentBack(text, c, a, c + 1, [], GoalBack(lines, m, q), start, rest);
    if start > -1 { GoalBackFound(lines, m, q, m, start); }
  }

  lemma PreviousLine(lines: seq<string>, m: nat, q: nat, l: nat, before: string, start: int, rest: Option<string>)
    requires l < |lines| && SearchingBackFrom(lines, m, q, l + 1, Some(before)) && start < |lines[l]|
    requires BackwardResult(Plain(Mirror(lines[l][..|lines[l]| - 1 + 1]), OpenMirrored(before)), |lines[l]| - 1, start, rest)
    ensures start > -1 ==> BackwardAnswer(lines, m, q, l, start)
    ensures start == -1 ==> SearchingBackFrom(lines, m, q, l, rest)
  {
    assert lines[l][..|lines[l]| - 1 + 1] == lines[l];
    LineInText(lines, l);
    AfterSegmentBack(Flat(lines), Off(lines, m) + q, Off(lines, l), Off(lines, l + 1), before, GoalBack(lines, m, q), start, rest);
    if start > -1 { GoalBackFound(lines, m, q, l, start); }
  }

  lemma NoLineBefore(lines: seq<string>, m: nat, q: nat, next: nat, rest: Option<string>)
    requires SearchingBackFrom(lines, m, q, next, rest) && (rest.Some? ==> next == 0)
    ensures BackwardAnswer(lines, m, q, 0, -1)
  {
    assert lines[..0] == [];
    GoalBackMissed(lines, m, q, 0);
  }

  /** Returns (line, 0, -1) when the bracket was never opened. */
  method ReverseCloseExpression(lines: seq<string>, linenum0: nat, pos: nat) returns (line: string, linenum: nat, start: int)
    requires linenum0 < |lines| && pos < |lines[linenum0]|
    ensures start == -1 ==> linenum == 0
    ensures start != -1 ==> linenum <= linenum0 && 0 <= start < |lines[linenum]| && line == lines[linenum]
    ensures !IsCloser(lines[linenum0][pos]) && lines[linenum0][pos] != '>' ==> start == -1
    ensures IsCloser(lines[linenum0][pos]) ==> BackwardAnswer(lines, linenum0, pos, linenum, start)
  {
    line := lines[linenum0];
    linenum := linenum0;
    if !IsCloser(line[pos]) && line[pos] != '>' {
      return line, 0, -1;
    }
    ghost var anchored := IsCloser(line[pos]);
    var stack: Option<string>;
    start, stack := FindStartOfExpressionInLine(line, pos, []);
    if anchored { LastLine(lines, linenum, pos, start, stack); }
    if start > -1 { return; }
    while stack.Some? && stack.value != [] && linenum > 0
      invariant linenum <= linenum0 && start == -1
      invariant anchored ==> SearchingBackFrom(lines, linenum0, pos, linenum, stack)
      decreases linenum
    {
      linenum := linenum - 1;
      line := lines[linenum];
      ghost var before := stack.value;
      start, stack := FindStartOfExpressionInLine(line, |line| - 1, stack.value);
      if anchored { PreviousLine(lines, linenum0, pos, linenum, before, start, stack); }
      if start > -1 { return; }
    }
    if anchored { NoLineBefore(lines, linenum0, pos, linenum, stack); }
    return line, 0, -1;
  }

  // ----- the two searches undo each other

  lemma MatchedAtUnique(lines: seq<string>, l: int, p: int, m: int, q: int, l': int, p': int, m': int, q': int)
    requires MatchedAt(lines, l, p, m, q) && MatchedAt(lines, l', p', m', q')
    ensures (l, p) == (l', p') <==> (m, q) == (m', q')
  {
    MatchUnique(Flat(lines), Off(lines, l) + p, Off(lines, m) + q, Off(lines, l') + p', Off(lines, m') + q');
    if Off(lines, l) + p == Off(lines, l') + p' { PositionUnique(lines, l, p, l', p'); }
    if Off(lines, m) + q == Off(lines, m') + q' { PositionUnique(lines, m, q, m', q'); }
  }

  /**
    For any text: CloseExpression leads from the opener at (l, p) to the place just after (m, q) if and only if
    ReverseCloseExpression leads from the closer at (m, q) to (l, p).
  */
  lemma SearchesAreInverse(lines: seq<string>, l: nat, p: nat, m: nat, q: nat, l': int, start: int, m': int, end: int)
    requires l < |lines| && p < |lines[l]| && IsOpener(lines[l][p])
    requires m < |lines| && q < |lines[m]| && IsCloser(lines[m][q])
    requires ForwardAnswer(lines, l, p, m', end)        // what CloseExpression(l, p) returned
    requires BackwardAnswer(lines, m, q, l', start)     // what ReverseCloseExpression(m, q) returned
    requires end == -1 || end > 0
    ensures end != -1 && m' == m && end - 1 == q <==> start != -1 && l' == l && start == p
  {
    if end != -1 && start != -1 {
      MatchedAtUnique(lines, l, p, m', end - 1, l', start, m, q);
    }
    if end != -1 && m' == m && end - 1 == q {
      assert MatchedAt(lines, l, p, m, q);
    }
  }

  /** Going forward from an opener and back again ends where it began. */
  method ForthAndBack(lines: seq<string>, l: nat, p: nat) returns (found: bool, l': nat, p': int)
    requires l < |lines| && p < |lines[l]| && IsOpener(lines[l][p])
    ensures found <==> exists m, q :: MatchedAt(lines, l, p, m, q)
    ensures found ==> l' == l && p' == p
  {
    var _, m, end := CloseExpression(lines, l, p);
    found, l', p' := end != -1, 0, -1;
    if found {
      MatchedEnds(lines, l, p, m, end - 1);
      var _, l1, p1 := ReverseCloseExpression(lines, m, end - 1);
      SearchesAreInverse(lines, l, p, m, end - 1, l1, p1, m, end);
      l', p' := l1, p1;
    }
  }

  /** And so does going back from a closer and forward again. */
  method BackAndForth(lines: seq<string>, m: nat, q: nat) returns (found: bool, m': nat, end: int)
    requires m < |lines| && q < |lines[m]| && IsCloser(lines[m][q])
    ensures found <==> exists l, p :: MatchedAt(lines, l, p, m, q)
    ensures found ==> m' == m && end == q + 1
  {
    var _, l, start := ReverseCloseExpression(lines, m, q);
    found, m', end := start != -1, 0, -1;
    if found {
      MatchedEnds(lines, l, start, m, q);
      var _, m1, end1 := CloseExpression(lines, l, start);
      SearchesAreInverse(lines, l, start, m, q, l, start, m1, end1);
      m', end := m1, end1;
    }
  }

  lemma MatchedEnds(lines: seq<string>, l: int, p: int, m: int, q: int)
    requires MatchedAt(lines, l, p, m, q)
    ensures IsOpener(lines[l][p]) && IsCloser(lines[m][q])
  {
    FirstSegment(lines, l, p);
    FirstSegment(lines, m, q);
    FlipOpener(lines[l][p]);
  }

  // ----- _GetTextInside

  ghost predicate Unclosed(text: string, o: int) { forall c :: !Matched(text, o, c) }

  /**
    The text between the opener just before `start` and its partner. `start` is where the search for the start
    pattern ended; None when the pattern was not found.
  */
  method GetTextInside(text: string, start: Option<nat>) returns (inside: Option<string>)
    requires start.Some? ==> 0 < start.value <= |text| && IsOpener(text[start.value - 1])
    ensures start == None ==> inside == None
    ensures start.Some? ==> match inside
      case Some(t) => exists c :: Matched(text, start.value - 1, c) && t == text[start.value..c]
      case None => Unclosed(text, start.value - 1)
  {
    if start == None { return None; }
    var first := start.value;
    var position := SkipToPartner(text, first);
    MatchFromPlain(text, first - 1);
    if position == -1 { return None; }
    return Some(text[first..position - 1]);
  }

  /** The loop of _GetTextInside: the place after the partner of the opener just before `first`, or -1. */
  method SkipToPartner(text: string, first: nat) returns (position: int)
    requires 0 < first <= |text| && IsOpener(text[first - 1])
    ensures position == -1 ==> !Plain(text[first - 1..], []).Found?
    ensures position != -1 ==> first < position <= |text| && Plain(text[first - 1..], []) == Found(position - (first - 1))
  {
    var expected := [Flip(text[first - 1])];
    ghost var o, stack := first - 1, [text[first - 1]];
    ghost var goal := BehindOpener(text, o, stack);
    position := first;
    while expected != [] && position < |text|
      invariant first <= position <= |text| && Expects(expected, stack)
      invariant expected != [] ==> Ahead(text, position, stack, o, goal)
      invariant expected == [] ==> first < position && goal == Found(position - o)
      decreases |text| - position
    {
      var c := text[position];
      ghost var rest, top := stack[..|stack| - 1], stack[|stack| - 1];
      ExpectsTop(expected, stack, c);
      if c == expected[|expected| - 1] {
        AheadClose(text, position, rest, top, o, goal);
        expected, stack := expected[..|expected| - 1], rest;
      } else if c == ')' || c == '}' || c == ']' {
        AheadClose(text, position, rest, top, o, goal);
        return -1;
      } else if c == '(' || c == '{' || c == '[' {
        AheadOpen(text, position, stack, o, goal);
        expected, stack := expected + [Flip(c)], stack + [c];
      } else {
        AheadSkip(text, position, stack, o, goal);
      }
      position := position + 1;
    }
    if expected != [] { return -1; }
  }

  lemma BehindOpener(text: string, o: nat, stack: string) returns (goal: Scan)
    requires o < |text| && IsOpener(text[o]) && stack == [text[o]]
    ensures goal == Plain(text[o..], []) && Ahead(text, o + 1, stack, o, goal)
  {
    goal := Plain(text[o..], []);
    AheadOpen(text, o, [], o, goal);
    assert [] + [text[o]] == stack;
  }

  /** The stack of expected closers, for the openers on `stack`. */
  ghost predicate Expects(expected: string, stack: string) {
    && |expected| == |stack|
    && forall i :: 0 <= i < |stack| ==> IsOpener(stack[i]) && expected[i] == Flip(stack[i])
  }

  lemma ExpectsTop(expected: string, stack: string, c: char)
    requires Expects(expected, stack) && expected != []
    ensures var n := |stack| - 1;
      && Expects(expected[..n], stack[..n]) && stack == stack[..n] + [stack[n]]
      && (c == expected[n] <==> stack[n] == Flip(c)) && (c == expected[n] ==> IsCloser(c))
    ensures IsOpener(c) ==> Expects(expected + [Flip(c)], stack + [c])
  {
    FlipInjective(stack[|stack| - 1], c);
  }

  lemma FlipInjective(o: char, c: char)
    requires IsOpener(o)
    ensures c == Flip(o) <==> Flip(c) == o
    ensures c == Flip(o) ==> IsCloser(c)
  {
  }

  /**
    The two independent matchers agree: on a one-line text _GetTextInside returns the text up to position
    end - 1 exactly when FindEndOfExpressionInLine, started on the same opener, returns `end`.
  */
  method MatchersAgree(text: string, start: nat) returns (inside: Option<string>, end: int)
    requires 0 < start <= |text| && IsOpener(text[start - 1])
    ensures inside.Some? <==> end != -1
    ensures inside.Some? ==> start < end <= |text| && inside.value == text[start..end - 1]
  {
    inside := GetTextInside(text, Some(start));
    var rest: Option<string>;
    end, rest := FindEndOfExpressionInLine(text, start - 1, []);
    MatchFromPlain(text, start - 1);
    if inside.Some? && end != -1 {
      ghost var c :| Matched(text, start - 1, c) && inside.value == text[start..c];
      MatchUnique(text, start - 1, c, start - 1, end - 1);
    }
  }
}
