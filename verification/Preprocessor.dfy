/**
  The preprocessor part of cpplint's nesting state (build_support/cpplint.py, NestingState.UpdatePreprocessor).

  What the rest of Update does with a line is an arbitrary effect on the nesting stack. Saved stacks are deep
  copies in cpplint, so a stack is a value here.
*/
module Preprocessor {
  datatype Directive = If | Else | Endif | NoDirective    // Else stands for #else and #elif

  datatype Line<!T> = Line(directive: Directive, effect: seq<T> -> seq<T>)

  datatype PreprocessorInfo<T> = PreprocessorInfo(beforeIf: seq<T>, beforeElse: seq<T>, seenElse: bool)

  datatype Nesting<T> = Nesting(stack: seq<T>, pp: seq<PreprocessorInfo<T>>)

  function Directed<T>(n: Nesting<T>, d: Directive): Nesting<T> {
    var k := |n.pp| - 1;
    match d
    case NoDirective => n
    case If => n.(pp := n.pp + [PreprocessorInfo(n.stack, [], false)])
    case Else =>
      if n.pp == [] then n
      else
        var top := n.pp[k];
        var marked := if top.seenElse then top else top.(seenElse := true, beforeElse := n.stack);
        Nesting(top.beforeIf, n.pp[..k] + [marked])
    case Endif =>
      if n.pp == [] then n
      else Nesting(if n.pp[k].seenElse then n.pp[k].beforeElse else n.stack, n.pp[..k])
  }

  class NestingState<T> {
    var stack: seq<T>
    var ppStack: seq<PreprocessorInfo<T>>

    constructor ()
      ensures stack == [] && ppStack == []
    {
      stack, ppStack := [], [];
    }

    function State(): Nesting<T> reads this { Nesting(stack, ppStack) }

    method UpdatePreprocessor(d: Directive)
      modifies this
      ensures State() == Directed(old(State()), d)
    {
      var k := |ppStack| - 1;
      if d == If {
        ppStack := ppStack + [PreprocessorInfo(stack, [], false)];
      } else if d == Else {
        if ppStack != [] {
          if !ppStack[k].seenElse {
            ppStack := ppStack[k := ppStack[k].(seenElse := true, beforeElse := stack)];
          }
          stack := ppStack[k].beforeIf;
        }
      } else if d == Endif {
        if ppStack != [] {
          if ppStack[k].seenElse {
            stack := ppStack[k].beforeElse;
          }
          ppStack := ppStack[..k];
        }
      }
    }

    /** One line: first the directive, then whatever else the line does to the stack. */
    method Update(line: Line<T>)
      modifies this
      ensures State() == AfterLine(old(State()), line)
    {
      UpdatePreprocessor(line.directive);
      stack := line.effect(stack);
    }
  }

  function AfterLine<T>(n: Nesting<T>, line: Line<T>): Nesting<T> {
    var d := Directed(n, line.directive);
    d.(stack := line.effect(d.stack))
  }

  function Run<T>(lines: seq<Line<T>>): Nesting<T> {
    if lines == [] then Nesting([], []) else AfterLine(Run(lines[..|lines| - 1]), lines[|lines| - 1])
  }

  // ----- the reference: skip from each first #else/#elif up to its #endif

  /** For each open #if, outermost first, whether an #else or #elif of it has been seen. */
  function Flags<T>(lines: seq<Line<T>>): seq<bool> {
    if lines == [] then []
    else
      var before := Flags(lines[..|lines| - 1]);
      match lines[|lines| - 1].directive
      case NoDirective => before
      case If => before + [false]
      case Else => if before == [] then [] else before[..|before| - 1] + [true]
      case Endif => if before == [] then [] else before[..|before| - 1]
  }

  /** No open #if has seen its #else: the text is in the branch that is taken to be compiled. */
  predicate Live(flags: seq<bool>) { true !in flags }

  /** The lines that are not skipped. */
  function Kept<T>(lines: seq<Line<T>>): seq<Line<T>> {
    if lines == [] then []
    else Kept(lines[..|lines| - 1]) + if Live(Flags(lines)) then [lines[|lines| - 1]] else []
  }

  /** What the kept lines do to an empty stack, directives ignored. */
  function Effects<T>(lines: seq<Line<T>>): seq<T> {
    if lines == [] then [] else lines[|lines| - 1].effect(Effects(lines[..|lines| - 1]))
  }

  // ----- the theorems

  /**
    The stack the live text has built so far: leaving the open #ifs one by one from the inside restores, for
    each that has seen its #else, what was there before that #else.
  */
  function LiveStack<T>(pp: seq<PreprocessorInfo<T>>, stack: seq<T>): seq<T>
    decreases |pp|
  {
    if pp == [] then stack
    else
      var top := pp[|pp| - 1];
      LiveStack(pp[..|pp| - 1], if top.seenElse then top.beforeElse else stack)
  }

  lemma DirectiveKeepsLiveStack<T>(n: Nesting<T>, d: Directive)
    ensures var n' := Directed(n, d); LiveStack(n'.pp, n'.stack) == LiveStack(n.pp, n.stack)
  {
    var n' := Directed(n, d);
    if d == If {
      assert n'.pp[..|n.pp|] == n.pp;
    } else if d == Else && n.pp != [] {
      assert n'.pp[..|n.pp| - 1] == n.pp[..|n.pp| - 1];
    }
  }

  lemma {:induction false} LiveStackIs<T>(pp: seq<PreprocessorInfo<T>>, stack: seq<T>, other: seq<T>)
    ensures (forall i :: 0 <= i < |pp| ==> !pp[i].seenElse) ==> LiveStack(pp, stack) == stack
    ensures (exists i :: 0 <= i < |pp| && pp[i].seenElse) ==> LiveStack(pp, stack) == LiveStack(pp, other)
    decreases |pp|
  {
    if pp != [] {
      LiveStackIs(pp[..|pp| - 1], stack, other);
    }
  }

  lemma {:induction false} FlagsFollow<T>(lines: seq<Line<T>>)
    ensures |Flags(lines)| == |Run(lines).pp|
    ensures forall i :: 0 <= i < |Flags(lines)| ==> Flags(lines)[i] == Run(lines).pp[i].seenElse
  {
    if lines != [] {
      FlagsFollow(lines[..|lines| - 1]);
    }
  }

  ghost predicate SeenNone<T>(pp: seq<PreprocessorInfo<T>>) { forall i :: 0 <= i < |pp| ==> !pp[i].seenElse }

  lemma FlagsAndSeen<T>(lines: seq<Line<T>>)
    ensures Live(Flags(lines)) <==> SeenNone(Run(lines).pp)
  {
    FlagsFollow(lines);
    if !SeenNone(Run(lines).pp) {
      var i :| 0 <= i < |Run(lines).pp| && Run(lines).pp[i].seenElse;
      assert Flags(lines)[i];
    }
  }

  lemma EffectOnLive<T>(d: Nesting<T>, line: Line<T>)
    ensures LiveStack(d.pp, line.effect(d.stack)) ==
      if SeenNone(d.pp) then line.effect(LiveStack(d.pp, d.stack)) else LiveStack(d.pp, d.stack)
  {
    LiveStackIs(d.pp, line.effect(d.stack), d.stack);
    LiveStackIs(d.pp, d.stack, d.stack);
  }

  lemma KeptStep<T>(lines: seq<Line<T>>)
    requires lines != []
    ensures var before, line := Effects(Kept(lines[..|lines| - 1])), lines[|lines| - 1];
      Effects(Kept(lines)) == if Live(Flags(lines)) then line.effect(before) else before
  {
    var front, line := lines[..|lines| - 1], lines[|lines| - 1];
    if Live(Flags(lines)) {
      assert Kept(lines) == Kept(front) + [line];
      assert Kept(lines)[..|Kept(lines)| - 1] == Kept(front);
    } else {
      assert Kept(lines) == Kept(front);
    }
  }

  /** After every line, what the live text has built is what the kept lines alone would build. */
  lemma {:induction false} LiveStackIsReference<T>(lines: seq<Line<T>>)
    ensures LiveStack(Run(lines).pp, Run(lines).stack) == Effects(Kept(lines))
  {
    if lines != [] {
      var front, line := lines[..|lines| - 1], lines[|lines| - 1];
      LiveStackIsReference(front);
      DirectiveKeepsLiveStack(Run(front), line.directive);
      EffectOnLive(Directed(Run(front), line.directive), line);
      FlagsAndSeen(lines);
      KeptStep(lines);
    }
  }

  /** The line number of each open #if, outermost first. */
  function OpenIfs<T>(lines: seq<Line<T>>): (r: seq<nat>)
    ensures forall i :: 0 <= i < |r| ==> r[i] < |lines|
  {
    if lines == [] then []
    else
      var before := OpenIfs(lines[..|lines| - 1]);
      match lines[|lines| - 1].directive
      case If => before + [|lines| - 1]
      case Endif => if before == [] then [] else before[..|before| - 1]
      case _ => before
  }

  /** Every saved stack is the one that was there before the line of its #if. */
  lemma {:induction false} SavedStacks<T>(lines: seq<Line<T>>)
    ensures |OpenIfs(lines)| == |Run(lines).pp|
    ensures forall i :: 0 <= i < |Run(lines).pp| ==> Run(lines).pp[i].beforeIf == Run(lines[..OpenIfs(lines)[i]]).stack
  {
    if lines != [] {
      SavedStacks(lines[..|lines| - 1]);
      forall i | 0 <= i < |Run(lines).pp|
        ensures Run(lines).pp[i].beforeIf == Run(lines[..OpenIfs(lines)[i]]).stack
      {
        SavedStep(lines, i);
      }
    }
  }

  lemma DirectiveKeepsSaved<T>(n: Nesting<T>, d: Directive, i: nat)
    requires i < |Directed(n, d).pp|
    ensures Directed(n, d).pp[i].beforeIf == if i < |n.pp| then n.pp[i].beforeIf else n.stack
  {
  }

  lemma SavedStep<T>(lines: seq<Line<T>>, i: nat)
    requires lines != [] && i < |Run(lines).pp| && |OpenIfs(lines)| == |Run(lines).pp|
    requires var front := lines[..|lines| - 1];
      |OpenIfs(front)| == |Run(front).pp|
      && (i < |Run(front).pp| ==> Run(front).pp[i].beforeIf == Run(front[..OpenIfs(front)[i]]).stack)
    ensures Run(lines).pp[i].beforeIf == Run(lines[..OpenIfs(lines)[i]]).stack
  {
    var front := lines[..|lines| - 1];
    DirectiveKeepsSaved(Run(front), lines[|front|].directive, i);
    if i < |Run(front).pp| {
      var k := OpenIfs(front)[i];
      assert front[..k] == lines[..k] && OpenIfs(lines)[i] == k;
    } else {
      assert OpenIfs(lines)[i] == |front|;
    }
  }

  /** Every #else and #elif branch, skipped or not, starts on the stack its own #if started on. */
  lemma BranchesStartAlike<T>(lines: seq<Line<T>>, line: Line<T>)
    requires line.directive == Else && OpenIfs(lines) != []
    ensures var k := OpenIfs(lines)[|OpenIfs(lines)| - 1];
      Directed(Run(lines), Else).stack == Run(lines[..k]).stack && lines[k].directive == If
  {
    SavedStacks(lines);
    OpenIfsAreIfs(lines);
  }

  lemma {:induction false} OpenIfsAreIfs<T>(lines: seq<Line<T>>)
    ensures forall i :: 0 <= i < |OpenIfs(lines)| ==> lines[OpenIfs(lines)[i]].directive == If
  {
    if lines != [] {
      var front := lines[..|lines| - 1];
      OpenIfsAreIfs(front);
      forall i | 0 <= i < |OpenIfs(lines)| ensures lines[OpenIfs(lines)[i]].directive == If {
        if i < |OpenIfs(front)| {
          assert lines[OpenIfs(front)[i]] == front[OpenIfs(front)[i]];
        }
      }
    }
  }

  // ----- the stack after every line, from the lines alone

  /** Line e is an #else or #elif of the #if in line i. */
  ghost predicate IsElseOf<T>(lines: seq<Line<T>>, e: int, i: int) {
    && 0 <= e < |lines| && lines[e].directive == Else
    && OpenIfs(lines[..e]) != [] && OpenIfs(lines[..e])[|OpenIfs(lines[..e])| - 1] == i
  }

  /**
    Line j still counts at the end of `lines`: of every #if it lies in, it is in the first branch if the #if is closed
    by then, and in the branch being read if not.
  */
  ghost predicate InEffect<T>(lines: seq<Line<T>>, j: int) {
    && 0 <= j < |lines|
    && forall i :: i in OpenIfs(lines[..j + 1]) ==> Counts(lines, i, j)
  }

  ghost predicate Counts<T>(lines: seq<Line<T>>, i: int, j: int) {
    if i in OpenIfs(lines) then forall e :: j < e ==> !IsElseOf(lines, e, i)
    else forall e :: e <= j ==> !IsElseOf(lines, e, i)
  }

  /** The lines in effect, in order, among the first m. */
  ghost function Pick<T>(lines: seq<Line<T>>, m: nat): seq<Line<T>>
    requires m <= |lines|
  {
    if m == 0 then [] else Pick(lines, m - 1) + if InEffect(lines, m - 1) then [lines[m - 1]] else []
  }

  ghost function Selected<T>(lines: seq<Line<T>>): seq<Line<T>> { Pick(lines, |lines|) }

  lemma {:induction false} PickSame<T>(lines: seq<Line<T>>, prefix: seq<Line<T>>, m: nat)
    requires m <= |prefix| <= |lines| && prefix == lines[..|prefix|]
    requires forall j :: 0 <= j < m ==> (InEffect(lines, j) <==> InEffect(prefix, j))
    ensures Pick(lines, m) == Pick(prefix, m)
  {
    if m > 0 { PickSame(lines, prefix, m - 1); }
  }

  lemma {:induction false} PickNone<T>(lines: seq<Line<T>>, b: nat, m: nat)
    requires b <= m <= |lines| && forall j :: b <= j < m ==> !InEffect(lines, j)
    ensures Pick(lines, m) == Pick(lines, b)
  {
    if b < m { PickNone(lines, b, m - 1); }
  }

  lemma {:induction false} OpenIfsIncrease<T>(lines: seq<Line<T>>)
    ensures forall p, q :: 0 <= p < q < |OpenIfs(lines)| ==> OpenIfs(lines)[p] < OpenIfs(lines)[q]
  {
    if lines != [] { OpenIfsIncrease(lines[..|lines| - 1]); }
  }

  /** While an #if is open, the ones around it do not change. */
  lemma {:induction false} OpenSince<T>(lines: seq<Line<T>>, p: nat, m: nat)
    requires p < |OpenIfs(lines)| && OpenIfs(lines)[p] < m <= |lines|
    ensures p < |OpenIfs(lines[..m])| && OpenIfs(lines[..m])[..p + 1] == OpenIfs(lines)[..p + 1]
    decreases |lines|
  {
    if m == |lines| {
      assert lines[..m] == lines;
    } else {
      var front := lines[..|lines| - 1];
      OpenSince(front, p, m);
      assert front[..m] == lines[..m];
      assert OpenIfs(lines)[..p + 1] == OpenIfs(front)[..p + 1];
    }
  }

  /** At its own line, only the ones around it are open. */
  lemma OpenAtStart<T>(lines: seq<Line<T>>, p: nat)
    requires p < |OpenIfs(lines)|
    ensures OpenIfs(lines[..OpenIfs(lines)[p]]) == OpenIfs(lines)[..p]
  {
    var k := OpenIfs(lines)[p];
    var now := lines[..k + 1];
    OpenSince(lines, p, k + 1);
    OpenIfsAreIfs(lines);
    assert now[..k] == lines[..k];
    assert OpenIfs(now) == OpenIfs(lines[..k]) + [k];
    assert OpenIfs(now)[p] == OpenIfs(lines)[..p + 1][p];
    assert OpenIfs(lines[..k]) == OpenIfs(now)[..p] == OpenIfs(now)[..p + 1][..p];
    assert OpenIfs(lines)[..p + 1][..p] == OpenIfs(lines)[..p];
  }

  /** No #else below the innermost open #if belongs to one around it. */
  lemma NoElseAround<T>(lines: seq<Line<T>>, p: nat, q: nat, e: int)
    requires p < q < |OpenIfs(lines)| && OpenIfs(lines)[q] <= e
    ensures !IsElseOf(lines, e, OpenIfs(lines)[p])
  {
    var k := OpenIfs(lines)[q];
    OpenIfsAreIfs(lines);
    OpenIfsIncrease(lines);
    if k < e < |lines| {
      OpenSince(lines, q, e);
      OpenIfsIncrease(lines[..e]);
      assert OpenIfs(lines[..e])[q] == OpenIfs(lines)[..q + 1][q];
    }
  }

  lemma ElseInPrefix<T>(lines: seq<Line<T>>, b: nat, e: int, i: int)
    requires b <= |lines|
    ensures IsElseOf(lines[..b], e, i) <==> e < b && IsElseOf(lines, e, i)
  {
    if 0 <= e < b { assert lines[..b][..e] == lines[..e]; }
  }

  ghost predicate FirstElse<T>(lines: seq<Line<T>>, e: int, i: int) {
    IsElseOf(lines, e, i) && forall e' :: e' < e ==> !IsElseOf(lines, e', i)
  }

  /** What the saved entry of an open #if has kept. */
  ghost predicate EntryIs<T>(lines: seq<Line<T>>, i: int, info: PreprocessorInfo<T>) {
    (info.seenElse <==> HasElse(lines, i)) && (info.seenElse ==> SavedAtElse(lines, i, info.beforeElse))
  }

  ghost predicate HasElse<T>(lines: seq<Line<T>>, i: int) { exists e :: IsElseOf(lines, e, i) }

  /** The stack that was there before the first #else. */
  ghost predicate SavedAtElse<T>(lines: seq<Line<T>>, i: int, stack: seq<T>) {
    exists e: nat :: FirstElse(lines, e, i) && stack == Run(lines[..e]).stack
  }

  lemma {:induction false} EntriesAre<T>(lines: seq<Line<T>>)
    ensures |OpenIfs(lines)| == |Run(lines).pp|
    ensures forall p :: 0 <= p < |Run(lines).pp| ==> EntryIs(lines, OpenIfs(lines)[p], Run(lines).pp[p])
  {
    SavedStacks(lines);
    if lines != [] {
      var front := lines[..|lines| - 1];
      EntriesAre(front);
      forall p | 0 <= p < |Run(lines).pp| ensures EntryIs(lines, OpenIfs(lines)[p], Run(lines).pp[p]) {
        EntryStep(lines, front, p);
      }
    }
  }

  /** A line that is no #else of `i` leaves what is known of its entry. */
  lemma EntryStays<T>(lines: seq<Line<T>>, front: seq<Line<T>>, i: int, info: PreprocessorInfo<T>)
    requires lines != [] && front == lines[..|lines| - 1] && EntryIs(front, i, info) && !IsElseOf(lines, |front|, i)
    ensures EntryIs(lines, i, info)
  {
    forall e ensures IsElseOf(front, e, i) <==> IsElseOf(lines, e, i) { ElseInPrefix(lines, |front|, e, i); }
    if info.seenElse {
      var e: nat :| FirstElse(front, e, i) && info.beforeElse == Run(front[..e]).stack;
      assert front[..e] == lines[..e];
      assert FirstElse(lines, e, i);
    }
  }

  /** The first #else of an #if marks its entry and saves the stack. */
  lemma EntryMarked<T>(lines: seq<Line<T>>, front: seq<Line<T>>, i: int, before: PreprocessorInfo<T>, info: PreprocessorInfo<T>)
    requires lines != [] && front == lines[..|lines| - 1] && EntryIs(front, i, before) && IsElseOf(lines, |front|, i)
    requires !before.seenElse && info.seenElse && info.beforeElse == Run(front).stack
    ensures EntryIs(lines, i, info)
  {
    var n := |front|;
    forall e | e < n ensures !IsElseOf(lines, e, i) {
      ElseInPrefix(lines, n, e, i);
      assert !IsElseOf(front, e, i);
    }
    assert lines[..n] == front && FirstElse(lines, n, i);
  }

  /** The others change nothing. */
  lemma EntryMarkedAgain<T>(lines: seq<Line<T>>, front: seq<Line<T>>, i: int, info: PreprocessorInfo<T>)
    requires lines != [] && front == lines[..|lines| - 1] && EntryIs(front, i, info) && info.seenElse
    ensures EntryIs(lines, i, info)
  {
    var e := SavedAtFirstElse(front, i, info);
    FirstElseStays(lines, front, e, i);
    assert front[..e] == lines[..e];
  }

  lemma FirstElseStays<T>(lines: seq<Line<T>>, front: seq<Line<T>>, e: nat, i: int)
    requires lines != [] && front == lines[..|lines| - 1] && FirstElse(front, e, i)
    ensures FirstElse(lines, e, i)
  {
    forall e' | e' <= e ensures IsElseOf(front, e', i) <==> IsElseOf(lines, e', i) { ElseInPrefix(lines, |front|, e', i); }
  }

  lemma SavedAtFirstElse<T>(lines: seq<Line<T>>, i: int, info: PreprocessorInfo<T>) returns (e: nat)
    requires EntryIs(lines, i, info) && info.seenElse
    ensures FirstElse(lines, e, i) && info.beforeElse == Run(lines[..e]).stack && e <= |lines|
  {
    e :| FirstElse(lines, e, i) && info.beforeElse == Run(lines[..e]).stack;
  }

  lemma EntryBegins<T>(lines: seq<Line<T>>, i: int, info: PreprocessorInfo<T>)
    requires i == |lines| - 1 && !info.seenElse
    ensures EntryIs(lines, i, info)
  {
  }

  lemma LastLineElse<T>(lines: seq<Line<T>>, front: seq<Line<T>>, p: nat)
    requires lines != [] && front == lines[..|lines| - 1] && p < |OpenIfs(front)|
    ensures IsElseOf(lines, |front|, OpenIfs(front)[p]) <==> lines[|front|].directive == Else && p == |OpenIfs(front)| - 1
  {
    assert lines[..|front|] == front;
    OpenIfsIncrease(front);
  }

  /** What a directive does to the p-th entry. */
  lemma EntryAfterDirective<T>(n: Nesting<T>, d: Directive, p: nat)
    requires p < |n.pp| && p < |Directed(n, d).pp|
    ensures var before, info := n.pp[p], Directed(n, d).pp[p];
      if d == Else && p == |n.pp| - 1 then
        info.seenElse && (if before.seenElse then info == before else info.beforeElse == n.stack)
      else info == before
  {
  }

  /** What the last line does to the p-th entry, and whether it is an #else of its #if. */
  lemma EntryAfterLine<T>(lines: seq<Line<T>>, front: seq<Line<T>>, p: nat)
    requires lines != [] && front == lines[..|lines| - 1] && p < |OpenIfs(lines)| == |Run(lines).pp|
    requires p < |OpenIfs(front)| == |Run(front).pp|
    ensures OpenIfs(lines)[p] == OpenIfs(front)[p]
    ensures var i, before, info := OpenIfs(front)[p], Run(front).pp[p], Run(lines).pp[p];
      if IsElseOf(lines, |front|, i) then
        info.seenElse && (if before.seenElse then info == before else info.beforeElse == Run(front).stack)
      else info == before
  {
    LastLineElse(lines, front, p);
    EntryAfterDirective(Run(front), lines[|front|].directive, p);
  }

  lemma EntryStep<T>(lines: seq<Line<T>>, front: seq<Line<T>>, p: nat)
    requires lines != [] && front == lines[..|lines| - 1] && p < |OpenIfs(lines)| == |Run(lines).pp|
    requires |OpenIfs(front)| == |Run(front).pp|
    requires p < |Run(front).pp| ==> EntryIs(front, OpenIfs(front)[p], Run(front).pp[p])
    ensures EntryIs(lines, OpenIfs(lines)[p], Run(lines).pp[p])
  {
    var i, info := OpenIfs(lines)[p], Run(lines).pp[p];
    if p >= |OpenIfs(front)| {
      EntryBegins(lines, i, info);
    } else {
      var before := Run(front).pp[p];
      EntryAfterLine(lines, front, p);
      EntryGoesOn(lines, front, i, before, info);
    }
  }

  lemma EntryGoesOn<T>(lines: seq<Line<T>>, front: seq<Line<T>>, i: int, before: PreprocessorInfo<T>, info: PreprocessorInfo<T>)
    requires lines != [] && front == lines[..|lines| - 1] && EntryIs(front, i, before)
    requires if IsElseOf(lines, |front|, i) then
        info.seenElse && (if before.seenElse then info == before else info.beforeElse == Run(front).stack)
      else info == before
    ensures EntryIs(lines, i, info)
  {
    if !IsElseOf(lines, |front|, i) {
      EntryStays(lines, front, i, info);
    } else if before.seenElse {
      EntryMarkedAgain(lines, front, i, info);
    } else {
      EntryMarked(lines, front, i, before, info);
    }
  }

  /** The prefix whose stack a directive brings back. */
  ghost predicate GoesBackTo<T>(lines: seq<Line<T>>, d: Directive, b: int) {
    var open := OpenIfs(lines);
    0 <= b <= |lines| &&
    if open == [] || d == If || d == NoDirective then b == |lines|
    else
      var k := open[|open| - 1];
      if d == Else then b == k
      else if HasElse(lines, k) then FirstElse(lines, b, k)
      else b == |lines|
  }

  lemma DirectiveGoesBack<T>(lines: seq<Line<T>>, d: Directive) returns (b: nat)
    ensures GoesBackTo(lines, d, b) && Directed(Run(lines), d).stack == Run(lines[..b]).stack
  {
    EntriesAre(lines);
    b := |lines|;
    assert lines[..|lines|] == lines;
    if OpenIfs(lines) != [] {
      var p := |OpenIfs(lines)| - 1;
      if d == Else {
        SavedStacks(lines);
        b := OpenIfs(lines)[p];
      } else if d == Endif && Run(lines).pp[p].seenElse {
        b := SavedAtFirstElse(lines, OpenIfs(lines)[p], Run(lines).pp[p]);
      }
    }
  }

  /** Behind a directive, the lines before where it went back to count as they did there. */
  lemma SameEffect<T>(lines: seq<Line<T>>, front: seq<Line<T>>, b: nat, j: nat, i: int)
    requires lines != [] && front == lines[..|lines| - 1] && GoesBackTo(front, lines[|lines| - 1].directive, b)
    requires j < b && i in OpenIfs(lines[..j + 1])
    ensures Counts(lines, i, j) <==> Counts(lines[..b], i, j)
  {
    if b == |front| {
      SameEffectOn(lines, front, j, i);
    } else {
      SameEffectBack(lines, front, b, j, i);
    }
  }

  /** One more line that goes on with the stack. */
  lemma SameEffectOn<T>(lines: seq<Line<T>>, front: seq<Line<T>>, j: nat, i: int)
    requires lines != [] && front == lines[..|lines| - 1] && GoesBackTo(front, lines[|lines| - 1].directive, |front|)
    requires j < |front| && i in OpenIfs(lines[..j + 1])
    ensures Counts(lines, i, j) <==> Counts(front, i, j)
  {
    var n, open := |front|, OpenIfs(front);
    assert lines[..n] == front;
    forall e ensures IsElseOf(front, e, i) <==> e < n && IsElseOf(lines, e, i) { ElseInPrefix(lines, n, e, i); }
    OpenIfsIncrease(front);
    if open != [] { assert open[|open| - 1] < n; }
    assert i <= j;
    assert !IsElseOf(lines, n, i);
    if lines[n].directive == Endif && open != [] {
      assert i in OpenIfs(lines) <==> i in open && i != open[|open| - 1];
    } else {
      assert i in OpenIfs(lines) <==> i in open;
    }
  }

  /** An #if that is open or closed both here and there, with no #else since, counts the same. */
  lemma CountsSame<T>(lines: seq<Line<T>>, b: nat, i: int, j: nat)
    requires j < b <= |lines| && (i in OpenIfs(lines) <==> i in OpenIfs(lines[..b]))
    requires i in OpenIfs(lines) ==> forall e :: b <= e ==> !IsElseOf(lines, e, i)
    ensures Counts(lines, i, j) <==> Counts(lines[..b], i, j)
  {
    forall e ensures IsElseOf(lines[..b], e, i) <==> e < b && IsElseOf(lines, e, i) { ElseInPrefix(lines, b, e, i); }
  }

  /** An #if counts for all lines before its first #else: when that is reached, and when the #if is closed. */
  lemma CountsBefore<T>(lines: seq<Line<T>>, b: nat, i: int, j: nat)
    requires j < b <= |lines| && i in OpenIfs(lines[..b]) && i !in OpenIfs(lines)
    requires forall e :: e < b ==> !IsElseOf(lines, e, i)
    ensures Counts(lines, i, j) && Counts(lines[..b], i, j)
  {
    forall e ensures !IsElseOf(lines[..b], e, i) { ElseInPrefix(lines, b, e, i); }
  }

  /** A line that goes back to where `i` was open already, or was closed. */
  lemma SameEffectBack<T>(lines: seq<Line<T>>, front: seq<Line<T>>, b: nat, j: nat, i: int)
    requires lines != [] && front == lines[..|lines| - 1] && GoesBackTo(front, lines[|lines| - 1].directive, b) && b < |front|
    requires j < b && i in OpenIfs(lines[..j + 1])
    ensures Counts(lines, i, j) <==> Counts(lines[..b], i, j)
  {
    var open := OpenIfs(front);
    if i == open[|open| - 1] {
      SameEffectInside(lines, front, b, j, i);
    } else {
      SameEffectAround(lines, front, b, j, i);
    }
  }

  lemma SameEffectInside<T>(lines: seq<Line<T>>, front: seq<Line<T>>, b: nat, j: nat, k: nat)
    requires lines != [] && front == lines[..|lines| - 1] && GoesBackTo(front, lines[|lines| - 1].directive, b) && b < |front|
    requires j < b && k in OpenIfs(lines[..j + 1]) && OpenIfs(front)[|OpenIfs(front)| - 1] == k
    ensures Counts(lines, k, j) && Counts(lines[..b], k, j)
  {
    OpenAfter(lines, front, k);
    OpenWhereBack(front, b, k, |OpenIfs(front)| - 1, lines[|front|].directive);
    assert front[..b] == lines[..b] && lines[..|front|] == front;
    forall e | e < b ensures !IsElseOf(lines, e, k) { ElseInPrefix(lines, |front|, e, k); }
    CountsBefore(lines, b, k, j);
  }

  lemma SameEffectAround<T>(lines: seq<Line<T>>, front: seq<Line<T>>, b: nat, j: nat, i: int)
    requires lines != [] && front == lines[..|lines| - 1] && GoesBackTo(front, lines[|lines| - 1].directive, b) && b < |front|
    requires j < b && i in OpenIfs(lines[..j + 1]) && OpenIfs(front)[|OpenIfs(front)| - 1] != i
    ensures Counts(lines, i, j) <==> Counts(lines[..b], i, j)
  {
    OpenHereAndThere(lines, front, b, i);
    if i in OpenIfs(lines) { NoElseSince(lines, front, |OpenIfs(front)| - 1, b, i); }
    CountsSame(lines, b, i, j);
  }

  lemma OpenHereAndThere<T>(lines: seq<Line<T>>, front: seq<Line<T>>, b: nat, i: int)
    requires lines != [] && front == lines[..|lines| - 1] && GoesBackTo(front, lines[|lines| - 1].directive, b) && b < |front|
    requires OpenIfs(front)[|OpenIfs(front)| - 1] != i
    ensures i in OpenIfs(lines) <==> i in OpenIfs(lines[..b])
    ensures i in OpenIfs(lines) ==> i in OpenIfs(front)
    ensures OpenIfs(front)[|OpenIfs(front)| - 1] <= b
  {
    var open := OpenIfs(front);
    var p := |open| - 1;
    OpenWhereBack(front, b, open[p], p, lines[|front|].directive);
    assert front[..b] == lines[..b];
    OpenAfter(lines, front, open[p]);
    OpenOnBothSides(front, open, p, i);
  }

  lemma OpenOnBothSides<T>(front: seq<Line<T>>, open: seq<nat>, p: nat, i: int)
    requires open == OpenIfs(front) && p == |open| - 1 && i != open[p]
    ensures i in open[..p] <==> i in open
  {
  }

  lemma NoElseSince<T>(lines: seq<Line<T>>, front: seq<Line<T>>, p: nat, b: nat, i: int)
    requires lines != [] && front == lines[..|lines| - 1] && p == |OpenIfs(front)| - 1
    requires i in OpenIfs(front) && i != OpenIfs(front)[p] <= b
    ensures forall e :: b <= e ==> !IsElseOf(lines, e, i)
  {
    var q :| 0 <= q < |OpenIfs(front)| && OpenIfs(front)[q] == i;
    assert lines[..|front|] == front;
    forall e | b <= e ensures !IsElseOf(lines, e, i) {
      ElseInPrefix(lines, |front|, e, i);
      NoElseAround(front, q, p, e);
    }
  }

  lemma OpenWhereBack<T>(front: seq<Line<T>>, b: nat, k: nat, p: nat, d: Directive)
    requires GoesBackTo(front, d, b) && b < |front| && p == |OpenIfs(front)| - 1 && k == OpenIfs(front)[p]
    ensures k <= b
    ensures d == Else ==> OpenIfs(front[..b]) == OpenIfs(front)[..p]
    ensures d != Else ==> OpenIfs(front[..b]) == OpenIfs(front)
  {
    if d == Else {
      OpenAtStart(front, p);
    } else {
      var there := OpenIfs(front[..b]);
      assert there[|there| - 1] == k && k < b;
      OpenSince(front, p, b);
      OpenIfsIncrease(front[..b]);
      assert there[p] == there[..p + 1][p] == k;
      assert there == there[..p + 1];
    }
  }

  /** And the lines since then no longer do. */
  lemma OutOfEffect<T>(lines: seq<Line<T>>, front: seq<Line<T>>, b: nat, j: nat)
    requires lines != [] && front == lines[..|lines| - 1] && GoesBackTo(front, lines[|lines| - 1].directive, b)
    requires b <= j < |front|
    ensures !InEffect(lines, j)
  {
    var p := |OpenIfs(front)| - 1;
    var k := OpenIfs(front)[p];
    OpenWhereBack(front, b, k, p, lines[|front|].directive);
    StillOpen(lines, front, p, j);
    NoLongerCounts(lines, front, b, j, k);
    OneIsEnough(lines, j, k);
  }

  lemma OneIsEnough<T>(lines: seq<Line<T>>, j: nat, k: int)
    requires j < |lines| && k in OpenIfs(lines[..j + 1]) && !Counts(lines, k, j)
    ensures !InEffect(lines, j)
  {
  }

  lemma StillOpen<T>(lines: seq<Line<T>>, front: seq<Line<T>>, p: nat, j: nat)
    requires lines != [] && front == lines[..|lines| - 1] && p < |OpenIfs(front)| && OpenIfs(front)[p] <= j < |front|
    ensures OpenIfs(front)[p] in OpenIfs(lines[..j + 1])
  {
    OpenSince(front, p, j + 1);
    assert front[..j + 1] == lines[..j + 1];
    assert OpenIfs(front[..j + 1])[p] == OpenIfs(front[..j + 1])[..p + 1][p];
  }

  lemma NoLongerCounts<T>(lines: seq<Line<T>>, front: seq<Line<T>>, b: nat, j: nat, k: nat)
    requires lines != [] && front == lines[..|lines| - 1] && GoesBackTo(front, lines[|lines| - 1].directive, b)
    requires b <= j < |front| && OpenIfs(front) != [] && k == OpenIfs(front)[|OpenIfs(front)| - 1]
    ensures !Counts(lines, k, j)
  {
    OpenAfter(lines, front, k);
    assert lines[..|front|] == front;
    if lines[|front|].directive == Else {
      assert IsElseOf(lines, |front|, k);
    } else {
      ElseInPrefix(lines, |front|, b, k);
      assert IsElseOf(lines, b, k);
    }
  }

  /** What an #else or an #endif leaves open. */
  lemma OpenAfter<T>(lines: seq<Line<T>>, front: seq<Line<T>>, k: nat)
    requires lines != [] && front == lines[..|lines| - 1]
    requires OpenIfs(front) != [] && k == OpenIfs(front)[|OpenIfs(front)| - 1]
    ensures lines[|front|].directive == Else ==> OpenIfs(lines) == OpenIfs(front)
    ensures lines[|front|].directive == Endif ==> OpenIfs(lines) == OpenIfs(front)[..|OpenIfs(front)| - 1] && k !in OpenIfs(lines)
    ensures k in OpenIfs(front)
  {
    OpenIfsIncrease(front);
  }

  lemma SelectedStep<T>(lines: seq<Line<T>>, b: nat)
    requires lines != [] && GoesBackTo(lines[..|lines| - 1], lines[|lines| - 1].directive, b)
    ensures Selected(lines) == Selected(lines[..b]) + [lines[|lines| - 1]]
  {
    var n, prefix := |lines| - 1, lines[..b];
    var front := lines[..n];
    forall j | 0 <= j < b ensures InEffect(lines, j) <==> InEffect(prefix, j) {
      assert prefix[..j + 1] == lines[..j + 1];
      forall i | i in OpenIfs(lines[..j + 1]) ensures Counts(lines, i, j) <==> Counts(prefix, i, j) {
        SameEffect(lines, front, b, j, i);
      }
    }
    forall j | b <= j < n ensures !InEffect(lines, j) { OutOfEffect(lines, front, b, j); }
    PickSame(lines, prefix, b);
    PickNone(lines, b, n);
    assert lines[..n + 1] == lines;
    assert InEffect(lines, n);
  }

  /**
    After every line, live or skipped, the nesting stack is what the lines in effect make of an empty one: those before
    each open #if and in its branch being read, with every closed #if inside reduced to its first branch.
  */
  lemma {:induction false} StackIsOfLinesInEffect<T>(lines: seq<Line<T>>)
    ensures Run(lines).stack == Effects(Selected(lines))
    decreases |lines|
  {
    if lines != [] {
      var front, line := lines[..|lines| - 1], lines[|lines| - 1];
      var b := DirectiveGoesBack(front, line.directive);
      assert front[..b] == lines[..b];
      SelectedStep(lines, b);
      StackIsOfLinesInEffect(lines[..b]);
      assert Selected(lines)[..|Selected(lines)| - 1] == Selected(lines[..b]);
    }
  }

  lemma LiveMeans<T>(lines: seq<Line<T>>)
    ensures Live(Flags(lines)) <==> forall i :: i in OpenIfs(lines) ==> !HasElse(lines, i)
  {
    FlagsFollow(lines);
    EntriesAre(lines);
    if Live(Flags(lines)) {
      forall i | i in OpenIfs(lines) ensures !HasElse(lines, i) {
        var p :| 0 <= p < |OpenIfs(lines)| && OpenIfs(lines)[p] == i;
        assert EntryIs(lines, i, Run(lines).pp[p]) && !Flags(lines)[p];
      }
    } else {
      var p :| 0 <= p < |Flags(lines)| && Flags(lines)[p];
      assert EntryIs(lines, OpenIfs(lines)[p], Run(lines).pp[p]);
      assert OpenIfs(lines)[p] in OpenIfs(lines);
    }
  }

  /** Among live lines, being in effect is not being skipped. */
  lemma InEffectIsLive<T>(lines: seq<Line<T>>, now: seq<Line<T>>, j: nat)
    requires j < |lines| && now == lines[..j + 1] && Live(Flags(lines))
    ensures InEffect(lines, j) <==> Live(Flags(now))
  {
    LiveMeans(lines);
    LiveMeans(now);
    forall i | i in OpenIfs(now) ensures Counts(lines, i, j) <==> !HasElse(now, i) {
      CountsIsNoElse(lines, now, i, j);
    }
  }

  lemma CountsIsNoElse<T>(lines: seq<Line<T>>, now: seq<Line<T>>, i: int, j: nat)
    requires j < |lines| && now == lines[..j + 1] && (i in OpenIfs(lines) ==> !HasElse(lines, i))
    ensures Counts(lines, i, j) <==> !HasElse(now, i)
  {
    if HasElse(now, i) {
      var e :| IsElseOf(now, e, i);
      ElseInPrefix(lines, j + 1, e, i);
      assert HasElse(lines, i);
    } else {
      forall e | e <= j ensures !IsElseOf(lines, e, i) {
        ElseInPrefix(lines, j + 1, e, i);
        assert !IsElseOf(now, e, i);
      }
    }
  }

  lemma {:induction false} KeptIsPicked<T>(lines: seq<Line<T>>, m: nat)
    requires m <= |lines| && Live(Flags(lines))
    ensures Kept(lines[..m]) == Pick(lines, m)
  {
    if m > 0 {
      var now := lines[..m];
      KeptIsPicked(lines, m - 1);
      assert now[..m - 1] == lines[..m - 1] && now == lines[..m - 1 + 1];
      InEffectIsLive(lines, now, m - 1);
    }
  }

  /**
    For any effects of the lines and any nesting of directives: wherever no open #if has seen its #else, the
    nesting stack is the one that results from skipping all lines from each first #else or #elif up to its #endif.
  */
  lemma SkippedBranchesLeaveNoTrace<T>(lines: seq<Line<T>>)
    requires Live(Flags(lines))
    ensures Run(lines).stack == Effects(Kept(lines))
  {
    StackIsOfLinesInEffect(lines);
    KeptIsPicked(lines, |lines|);
    assert lines[..|lines|] == lines;
  }
}
