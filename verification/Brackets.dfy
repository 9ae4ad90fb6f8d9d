/**
  cpplint's bracket scanners for one line (build_support/cpplint.py), with their guesses about angle brackets.
*/
module Brackets {
  import opened Basics
  import opened Dyck
  import opened PyText

  // ----- the plain matcher, seen from a scan in progress

  /** Reading `text` from `i` with the open brackets `open` still leads to `goal`, which counts from `start`. */
  ghost predicate Ahead(text: string, i: int, open: string, start: int, goal: Scan) {
    0 <= i <= |text| && goal == Shift(Plain(text[i..], open), i - start)
  }

  lemma AheadSkip(text: string, i: int, open: string, start: int, goal: Scan)
    requires Ahead(text, i, open, start, goal) && i < |text| && !IsOpener(text[i]) && !IsCloser(text[i])
    ensures Ahead(text, i + 1, open, start, goal)
  {
    assert text[i..][1..] == text[i + 1..];
  }

  lemma AheadOpen(text: string, i: int, open: string, start: int, goal: Scan)
    requires Ahead(text, i, open, start, goal) && i < |text| && IsOpener(text[i])
    ensures Ahead(text, i + 1, open + [text[i]], start, goal)
  {
    assert text[i..][1..] == text[i + 1..];
  }

  /** A closer: a mismatch, the end of the search, or one open bracket less. */
  lemma AheadClose(text: string, i: int, rest: string, top: char, start: int, goal: Scan)
    requires Ahead(text, i, rest + [top], start, goal) && i < |text| && IsCloser(text[i])
    ensures top != Flip(text[i]) ==> goal == Broken
    ensures top == Flip(text[i]) && rest == [] ==> goal == Found(i + 1 - start)
    ensures top == Flip(text[i]) && rest != [] ==> Ahead(text, i + 1, rest, start, goal)
  {
    var s := text[i..];
    assert s[0] == text[i] && s[1..] == text[i + 1..];
    PlainCloses(s, rest, top);
  }

  lemma PlainCloses(s: string, rest: string, top: char)
    requires s != [] && IsCloser(s[0])
    ensures Plain(s, rest + [top]) ==
      if top != Flip(s[0]) then Broken else if rest == [] then Found(1) else Shift(Plain(s[1..], rest), 1)
  {
    assert (rest + [top])[..|rest|] == rest;
  }

  // ----- the scanners' stack

  /** The stack without the angle brackets the scanner guesses about. */
  function Erase(stack: string, angle: char): string {
    if stack == [] then []
    else
      var rest := Erase(stack[..|stack| - 1], angle);
      if stack[|stack| - 1] == angle then rest else rest + [stack[|stack| - 1]]
  }

  lemma ErasePush(stack: string, c: char, angle: char)
    ensures Erase(stack + [c], angle) == if c == angle then Erase(stack, angle) else Erase(stack, angle) + [c]
  {
    assert (stack + [c])[..|stack|] == stack;
  }

  /** A stack whose bottom is not a guess. */
  predicate Firm(stack: string, angle: char) { stack != [] && stack[0] != angle }

  lemma {:induction false} EraseKeepsBottom(stack: string, angle: char)
    requires Firm(stack, angle)
    ensures Erase(stack, angle) != []
  {
    if |stack| > 1 {
      EraseKeepsBottom(stack[..|stack| - 1], angle);
    }
  }

  lemma ErasedTop(stack: string, angle: char)
    requires Firm(stack, angle) && stack[|stack| - 1] != angle
    ensures Erase(stack, angle) == Erase(stack[..|stack| - 1], angle) + [stack[|stack| - 1]]
    ensures Erase(stack[..|stack| - 1], angle) == [] <==> |stack| == 1
  {
    if |stack| > 1 {
      EraseKeepsBottom(stack[..|stack| - 1], angle);
    }
  }

  /** The loop that drops pending angle brackets from the top of the stack. */
  method PopAngles(stack0: string, angle: char) returns (stack: string)
    ensures Erase(stack, angle) == Erase(stack0, angle)
    ensures stack != [] ==> stack[|stack| - 1] != angle && stack[0] == stack0[0]
    ensures Firm(stack0, angle) ==> Firm(stack, angle)
    ensures stack <= stack0 && forall i :: |stack| <= i < |stack0| ==> stack0[i] == angle
  {
    stack := stack0;
    while stack != [] && stack[|stack| - 1] == angle
      invariant stack <= stack0 && Erase(stack, angle) == Erase(stack0, angle)
      invariant Firm(stack0, angle) ==> Firm(stack, angle)
      invariant forall i :: |stack| <= i < |stack0| ==> stack0[i] == angle
    {
      stack := stack[..|stack| - 1];
    }
  }

  // ----- forward

  /** A scan of `line` from `pos` with `stack` that was started on a round, square or curly opener. */
  predicate AnchoredForward(line: string, pos: nat, stack: string) {
    if stack == [] then pos < |line| && IsOpener(line[pos]) else Firm(stack, '<')
  }

  /** What the scanner returns when the plain matcher's verdict is `r`. */
  ghost predicate ForwardResult(r: Scan, startpos: int, end: int, rest: Option<string>) {
    match r
    case Found(e) => end == startpos + e && end > startpos
    case Broken => end == -1 && rest == None
    case Unfinished(open) => end == -1 && rest.Some? && Firm(rest.value, '<') && Erase(rest.value, '<') == open
  }

  /** The scan of `line` has come to `i` with the openers of `stack` open. */
  ghost predicate Forth(line: string, i: int, stack: string, start: int, goal: Scan) {
    Ahead(line, i, Erase(stack, '<'), start, goal)
  }

  lemma ForthPush(line: string, i: int, stack: string, start: int, goal: Scan)
    requires Forth(line, i, stack, start, goal) && i < |line| && IsOpener(line[i])
    ensures Forth(line, i + 1, stack + [line[i]], start, goal)
  {
    AheadOpen(line, i, Erase(stack, '<'), start, goal);
    ErasePush(stack, line[i], '<');
  }

  /** Another character, and whatever is done to the angle brackets on the stack, make no difference. */
  lemma ForthSkip(line: string, i: int, stack: string, stack': string, start: int, goal: Scan)
    requires Forth(line, i, stack, start, goal) && i < |line| && !IsOpener(line[i]) && !IsCloser(line[i])
    requires Erase(stack', '<') == Erase(stack, '<')
    ensures Forth(line, i + 1, stack', start, goal)
  {
    AheadSkip(line, i, Erase(stack, '<'), start, goal);
  }

  /** A closer: a mismatch, the end of the search, or one open bracket less. */
  lemma ForthClose(line: string, i: int, stack: string, start: int, goal: Scan)
    requires Forth(line, i, stack, start, goal) && i < |line| && IsCloser(line[i])
    requires Firm(stack, '<') && stack[|stack| - 1] != '<'
    ensures var n := |stack| - 1;
      && (stack[n] != Flip(line[i]) ==> goal == Broken)
      && (stack[n] == Flip(line[i]) && n == 0 ==> goal == Found(i + 1 - start))
      && (stack[n] == Flip(line[i]) && n > 0 ==> Forth(line, i + 1, stack[..n], start, goal))
  {
    ErasedTop(stack, '<');
    AheadClose(line, i, Erase(stack[..|stack| - 1], '<'), stack[|stack| - 1], start, goal);
  }

  lemma EraseAngle(stack: string, angle: char)
    requires stack != [] && stack[|stack| - 1] == angle
    ensures Erase(stack[..|stack| - 1], angle) == Erase(stack, angle)
  {
  }

  /** A character other than a bracket, with the guesses about it; `stop` when no bracket is left on the stack. */
  method GuessForward(line: string, i: nat, stack0: string) returns (stack: string, stop: bool)
    requires i < |line| && !IsOpener(line[i]) && !IsCloser(line[i])
    ensures Erase(stack, '<') == Erase(stack0, '<')
    ensures Firm(stack0, '<') ==> Firm(stack, '<') && !stop
  {
    var c := line[i];
    stack, stop := stack0, false;
    if c == '<' {
      if i > 0 && line[i - 1] == '<' {
        if stack != [] && stack[|stack| - 1] == '<' {
          EraseAngle(stack, '<');
          stack := stack[..|stack| - 1];
          stop := stack == [];
        }
      } else if !(i > 0 && EndsInOperator(line[..i])) {
        ErasePush(stack, '<', '<');
        stack := stack + ['<'];
      }
    } else if c == '>' {
      if i > 0 && (line[i - 1] == '-' || EndsInOperator(line[..i - 1])) { return; }
      if stack != [] && stack[|stack| - 1] == '<' {
        EraseAngle(stack, '<');
        stack := stack[..|stack| - 1];
        stop := stack == [];
      }
    } else if c == ';' {
      stack := PopAngles(stack, '<');
      stop := stack == [];
    }
  }

  /**
    Started on a bracket, all guesses about `<` and `>` are irrelevant: the scanner does what the plain
    matcher does on the stack without them.
  */
  method FindEndOfExpressionInLine(line: string, startpos: nat, stack0: string) returns (end: int, rest: Option<string>)
    requires startpos <= |line|
    ensures end == -1 || (startpos < end <= |line| && rest == None)
    ensures AnchoredForward(line, startpos, stack0) ==>
      ForwardResult(Plain(line[startpos..], Erase(stack0, '<')), startpos, end, rest)
  {
    var stack := stack0;
    ghost var anchored := AnchoredForward(line, startpos, stack0);
    ghost var goal := Plain(line[startpos..], Erase(stack0, '<'));
    for i := startpos to |line|
      invariant anchored ==> Firm(stack, '<') || (i == startpos && stack == stack0)
      invariant anchored ==> Forth(line, i, stack, startpos, goal)
    {
      var c := line[i];
      if c == '(' || c == '[' || c == '{' {
        if anchored { ForthPush(line, i, stack, startpos, goal); }
        stack := stack + [c];
      } else if c == ')' || c == ']' || c == '}' {
        stack := PopAngles(stack, '<');
        if stack == [] { return -1, None; }
        if anchored { ForthClose(line, i, stack, startpos, goal); }
        if (stack[|stack| - 1] == '(' && c == ')') || (stack[|stack| - 1] == '[' && c == ']')
          || (stack[|stack| - 1] == '{' && c == '}') {
          stack := stack[..|stack| - 1];
          if stack == [] { return i + 1, None; }
        } else {
          return -1, None;
        }
      } else {
        ghost var before := stack;
        var stop: bool;
        stack, stop := GuessForward(line, i, stack);
        if stop { return if c == '>' then i + 1 else -1, None; }
        if anchored { ForthSkip(line, i, before, stack, startpos, goal); }
      }
    }
    return -1, Some(stack);
  }

  // ----- backward: a forward scan of the mirrored line, whose open brackets are the flipped closers

  predicate AnchoredBackward(line: string, pos: int, stack: string) {
    if stack == [] then 0 <= pos < |line| && IsCloser(line[pos]) else Firm(stack, '>')
  }

  /** The closers on the stack as the openers the mirrored line has open. */
  function OpenMirrored(stack: string): string { FlipAll(Erase(stack, '>')) }

  ghost predicate BackwardResult(r: Scan, endpos: int, start: int, rest: Option<string>) {
    match r
    case Found(e) => start == endpos + 1 - e && start >= 0
    case Broken => start == -1 && rest == None
    case Unfinished(open) => start == -1 && rest.Some? && Firm(rest.value, '>') && OpenMirrored(rest.value) == open
  }

  function FlipAll(stack: string): (r: string)
    ensures |r| == |stack|
  {
    seq(|stack|, i requires 0 <= i < |stack| => Flip(stack[i]))
  }

  lemma FlipAllPush(stack: string, c: char)
    ensures FlipAll(stack + [c]) == FlipAll(stack) + [Flip(c)]
  {
  }

  lemma MirroredPush(stack: string, c: char)
    ensures OpenMirrored(stack + [c]) == if c == '>' then OpenMirrored(stack) else OpenMirrored(stack) + [Flip(c)]
  {
    ErasePush(stack, c, '>');
    FlipAllPush(Erase(stack, '>'), c);
  }

  lemma MirroredTop(stack: string)
    requires Firm(stack, '>') && stack[|stack| - 1] != '>'
    ensures OpenMirrored(stack) == OpenMirrored(stack[..|stack| - 1]) + [Flip(stack[|stack| - 1])]
    ensures OpenMirrored(stack[..|stack| - 1]) == [] <==> |stack| == 1
  {
    ErasedTop(stack, '>');
    FlipAllPush(Erase(stack[..|stack| - 1], '>'), stack[|stack| - 1]);
  }

  /** Match(r'\s>=\s', line[i - 1:]) */
  predicate SpacedGreaterEqual(line: string, i: nat)
    requires 0 < i < |line|
  {
    i + 2 < |line| && IsSpace(line[i - 1]) && line[i] == '>' && line[i + 1] == '=' && IsSpace(line[i + 2])
  }

  /** What makes the backward scan step over a `>` together with the character before it. */
  predicate NotATemplate(line: string, i: nat)
    requires 0 < i < |line|
  {
    line[i - 1] == '-' || SpacedGreaterEqual(line, i) || EndsInOperator(line[..i])
  }

  /** The extra character that the backward scan steps over is never a bracket. */
  lemma SkippedIsPlain(line: string, i: nat)
    requires 0 < i < |line| && NotATemplate(line, i)
    ensures !IsOpener(line[i - 1]) && !IsCloser(line[i - 1])
  {
    if EndsInOperator(line[..i]) { OperatorEndsPlainly(line[..i]); }
  }

  lemma FlipTwice(c: char)
    ensures Flip(Flip(c)) == c && (IsOpener(c) <==> IsCloser(Flip(c))) && (IsCloser(c) <==> IsOpener(Flip(c)))
  {
  }

  /** The scan of the mirrored line `m` has come to `j` with the closers of `stack` open. */
  ghost predicate Back(m: string, j: int, stack: string, goal: Scan) { Ahead(m, j, OpenMirrored(stack), 0, goal) }

  lemma BackPush(m: string, j: int, stack: string, c: char, goal: Scan)
    requires Back(m, j, stack, goal) && j < |m| && IsCloser(c) && m[j] == Flip(c)
    ensures Back(m, j + 1, stack + [c], goal)
  {
    FlipTwice(c);
    AheadOpen(m, j, OpenMirrored(stack), 0, goal);
    MirroredPush(stack, c);
  }

  /** Up to two other characters, and whatever is done to the angle brackets on the stack, make no difference. */
  lemma BackSkip(m: string, j: int, j': int, stack: string, stack': string, goal: Scan)
    requires Back(m, j, stack, goal) && j <= j' <= j + 1 && j' < |m| && Erase(stack', '>') == Erase(stack, '>')
    requires !IsOpener(m[j]) && !IsCloser(m[j]) && !IsOpener(m[j']) && !IsCloser(m[j'])
    ensures Back(m, j' + 1, stack', goal)
  {
    AheadSkip(m, j, OpenMirrored(stack), 0, goal);
    if j < j' { AheadSkip(m, j', OpenMirrored(stack), 0, goal); }
  }

  /** An opener of the line: a mismatch, the end of the search, or one open bracket less. */
  lemma BackClose(m: string, j: int, stack: string, c: char, goal: Scan)
    requires Back(m, j, stack, goal) && j < |m| && IsOpener(c) && m[j] == Flip(c)
    requires Firm(stack, '>') && stack[|stack| - 1] != '>'
    ensures var n := |stack| - 1;
      && (stack[n] != Flip(c) ==> goal == Broken)
      && (stack[n] == Flip(c) && n == 0 ==> goal == Found(j + 1))
      && (stack[n] == Flip(c) && n > 0 ==> Back(m, j + 1, stack[..n], goal))
  {
    var n := |stack| - 1;
    MirroredTop(stack);
    FlipTwice(stack[n]);
    FlipTwice(c);
    AheadClose(m, j, OpenMirrored(stack[..n]), Flip(stack[n]), 0, goal);
  }

  /** Where a forward scan of the mirrored line starts. */
  lemma BackStart(line: string, endpos: int, stack: string) returns (m: string, goal: Scan)
    requires -1 <= endpos < |line|
    ensures |m| == endpos + 1 && IsMirror(line, m)
    ensures goal == Plain(Mirror(line[..endpos + 1]), OpenMirrored(stack)) && Back(m, 0, stack, goal)
  {
    m := Mirror(line[..endpos + 1]);
    goal := Plain(m, OpenMirrored(stack));
    assert m[0..] == m;
  }

  ghost predicate IsMirror(line: string, m: string) { |m| <= |line| && m == Mirror(line[..|m|]) }

  lemma MirrorAt(line: string, m: string, i: nat)
    requires IsMirror(line, m) && i < |m|
    ensures m[|m| - 1 - i] == Flip(line[i])
    ensures IsOpener(m[|m| - 1 - i]) <==> IsCloser(line[i])
    ensures IsCloser(m[|m| - 1 - i]) <==> IsOpener(line[i])
  {
    FlipTwice(line[i]);
  }

  /** A character other than a bracket, with the guesses about it; `stop` when no bracket is left on the stack. */
  method GuessBackward(line: string, i0: nat, stack0: string) returns (i: int, stack: string, stop: bool)
    requires i0 < |line| && !IsOpener(line[i0]) && !IsCloser(line[i0])
    ensures i == i0 || (i == i0 - 1 && i >= 0 && !IsOpener(line[i]) && !IsCloser(line[i]))
    ensures Erase(stack, '>') == Erase(stack0, '>') && (stop ==> i == i0 && stack == [])
    ensures Firm(stack0, '>') ==> Firm(stack, '>') && !stop
  {
    var c := line[i0];
    i, stack, stop := i0, stack0, false;
    if c == '>' {
      if i > 0 && NotATemplate(line, i) {
        SkippedIsPlain(line, i);
        i := i - 1;
      } else {
        ErasePush(stack, '>', '>');
        stack := stack + ['>'];
      }
    } else if c == '<' {
      if i > 0 && line[i - 1] == '<' {
        i := i - 1;
      } else if stack != [] && stack[|stack| - 1] == '>' {
        EraseAngle(stack, '>');
        stack := stack[..|stack| - 1];
        stop := stack == [];
      }
    } else if c == ';' {
      stack := PopAngles(stack, '>');
      stop := stack == [];
    }
  }

  method FindStartOfExpressionInLine(line: string, endpos: int, stack0: string) returns (start: int, rest: Option<string>)
    requires -1 <= endpos < |line|
    ensures start == -1 || (0 <= start <= endpos && rest == None)
    ensures AnchoredBackward(line, endpos, stack0) ==>
      BackwardResult(Plain(Mirror(line[..endpos + 1]), OpenMirrored(stack0)), endpos, start, rest)
  {
    var stack := stack0;
    var i := endpos;
    ghost var anchored := AnchoredBackward(line, endpos, stack0);
    ghost var m, goal := BackStart(line, endpos, stack0);
    ghost var j := 0;
    while i >= 0
      invariant -1 <= i <= endpos && j == endpos - i
      invariant anchored ==> Firm(stack, '>') || (i == endpos && stack == stack0)
      invariant anchored ==> Back(m, j, stack, goal)
      decreases i
    {
      var c := line[i];
      MirrorAt(line, m, i);
      if c == ')' || c == ']' || c == '}' {
        if anchored { BackPush(m, j, stack, c, goal); }
        stack := stack + [c];
      } else if c == '(' || c == '[' || c == '{' {
        stack := PopAngles(stack, '>');
        if stack == [] { return -1, None; }
        if anchored { BackClose(m, j, stack, c, goal); }
        if (c == '(' && stack[|stack| - 1] == ')') || (c == '[' && stack[|stack| - 1] == ']')
          || (c == '{' && stack[|stack| - 1] == '}') {
          stack := stack[..|stack| - 1];
          if stack == [] { return i, None; }
        } else {
          return -1, None;
        }
      } else {
        ghost var before, first := stack, j;
        var stop: bool;
        i, stack, stop := GuessBackward(line, i, stack);
        if stop { return if c == '<' then i else -1, None; }
        j := endpos - i;
        MirrorAt(line, m, i);
        if anchored { BackSkip(m, first, j, before, stack, goal); }
      }
      i, j := i - 1, j + 1;
    }
    return -1, Some(stack);
  }
}
