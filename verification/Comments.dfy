/** cpplint's eraser for comments that span lines (build_support/cpplint.py, RemoveMultiLineComments). */
module Comments {
  import opened PyText

  const BLANK := "/**/"

  /** The line begins a comment that goes on beyond the line. */
  predicate IsStart(line: string) {
    var s := Strip(line);
    PairAt(s, 0, '/', '*') && !PairFrom(s, 2, '*', '/')
  }

  predicate IsEnd(line: string) {
    var s := Strip(line);
    PairAt(s, |s| - 2, '*', '/')
  }

  /** The first characters other than spaces open a comment, and no closing pair stands behind them. */
  ghost predicate Opens(line: string, a: int) {
    && PairAt(line, a, '/', '*') && Spaces(line, 0, a)
    && forall i :: a + 2 <= i ==> !PairAt(line, i, '*', '/')
  }

  /** The last characters other than spaces close a comment. */
  ghost predicate Closes(line: string, b: int) { PairAt(line, b, '*', '/') && Spaces(line, b + 2, |line|) }

  lemma IsStartMeans(line: string)
    ensures IsStart(line) <==> StartsComment(line)
  {
    var a, b := StripIs(line);
    var s := Strip(line);
    PairFromMeans(s, 2, '*', '/');
    forall i ensures a <= i ==> (PairAt(line, i, '*', '/') <==> PairAt(s, i - a, '*', '/')) { PairInside(line, a, b, i, '*', '/'); }
    PairInside(line, a, b, a, '/', '*');
    if IsStart(line) {
      forall i | a + 2 <= i ensures !PairAt(line, i, '*', '/') {
        assert !PairAt(s, i - a, '*', '/');
      }
      assert Opens(line, a);
    }
    if x :| Opens(line, x) {
      FirstNonSpace(line, a, b, x);
      forall j | 2 <= j ensures !PairAt(s, j, '*', '/') {
        assert !PairAt(line, a + j, '*', '/');
      }
    }
  }

  /** A pair of characters other than spaces stands inside what strip leaves. */
  lemma PairInside(line: string, a: nat, b: nat, i: int, c: char, d: char)
    requires a <= b <= |line| && Spaces(line, b, |line|) && !IsSpace(c) && !IsSpace(d)
    ensures a <= i ==> (PairAt(line, i, c, d) <==> PairAt(line[a..b], i - a, c, d))
  {
  }

  lemma FirstNonSpace(line: string, a: nat, b: nat, x: int)
    requires a <= b <= |line| && Spaces(line, 0, a) && Spaces(line, b, |line|) && (a < b ==> !IsSpace(line[a]))
    requires 0 <= x < |line| && !IsSpace(line[x]) && Spaces(line, 0, x)
    ensures x == a
  {
  }

  lemma LastNonSpace(line: string, a: nat, b: nat, x: int)
    requires a <= b <= |line| && Spaces(line, 0, a) && Spaces(line, b, |line|) && (a < b ==> !IsSpace(line[b - 1]))
    requires 0 <= x < |line| && !IsSpace(line[x]) && Spaces(line, x + 1, |line|)
    ensures x == b - 1
  {
  }

  lemma IsEndMeans(line: string)
    ensures IsEnd(line) <==> EndsComment(line)
  {
    var a, b := StripIs(line);
    var s := Strip(line);
    if IsEnd(line) {
      assert Closes(line, b - 2);
    }
    if x :| Closes(line, x) {
      LastNonSpace(line, a, b, x + 1);
    }
  }

  ghost predicate StartsComment(line: string) { exists a :: Opens(line, a) }

  ghost predicate EndsComment(line: string) { exists b :: Closes(line, b) }

  // ----- the reference: one pass over the lines with one bit of state

  /** Line k belongs to a comment, its first and last line included. */
  predicate InComment(lines: seq<string>, k: nat)
    requires k < |lines|
    decreases k
  {
    IsStart(lines[k]) || (k > 0 && InComment(lines, k - 1) && !IsEnd(lines[k - 1]))
  }

  /** Some line from the k-th on ends a comment. */
  predicate EndsFrom(lines: seq<string>, k: nat)
    decreases |lines| - k
  {
    k < |lines| && (IsEnd(lines[k]) || EndsFrom(lines, k + 1))
  }

  lemma {:induction false} EndsFromMeans(lines: seq<string>, k: nat)
    ensures EndsFrom(lines, k) <==> exists e :: k <= e < |lines| && IsEnd(lines[e])
    decreases |lines| - k
  {
    if k < |lines| {
      EndsFromMeans(lines, k + 1);
    }
  }

  /** Line k belongs to a comment that ends somewhere. */
  predicate InClosedComment(lines: seq<string>, k: nat)
    requires k < |lines|
  {
    InComment(lines, k) && EndsFrom(lines, k)
  }

  function Erased(lines: seq<string>): (r: seq<string>)
    ensures |r| == |lines|
  {
    seq(|lines|, k requires 0 <= k < |lines| => if InClosedComment(lines, k) then BLANK else lines[k])
  }

  /** The first line of a comment that never ends. */
  ghost predicate IsUnterminated(lines: seq<string>, k: int) {
    0 <= k < |lines| && IsStart(lines[k]) && !EndsFrom(lines, k) && (k > 0 ==> !InComment(lines, k - 1) || IsEnd(lines[k - 1]))
  }

  // ----- what that means, by the lines themselves

  /** Line k lies between a line that starts a comment and one that ends it, with no end in between. */
  ghost predicate Encloses(lines: seq<string>, b: int, k: int, e: int) {
    && 0 <= b <= k <= e < |lines| && StartsComment(lines[b]) && EndsComment(lines[e])
    && forall j :: b <= j < k ==> !EndsComment(lines[j])
  }

  /** Exactly the enclosed lines have become blank comments. */
  ghost predicate BlanksComments(before: seq<string>, after: seq<string>) {
    && |after| == |before|
    && forall k :: 0 <= k < |before| ==>
         (((exists b, e :: Encloses(before, b, k, e)) ==> after[k] == "/**/")
         && (!(exists b, e :: Encloses(before, b, k, e)) ==> after[k] == before[k]))
  }

  /** Line k starts a comment, nothing ends it, and every comment that starts before has ended by then. */
  ghost predicate Unended(lines: seq<string>, k: int) {
    && 0 <= k < |lines| && StartsComment(lines[k])
    && (forall e :: k <= e < |lines| ==> !EndsComment(lines[e]))
    && forall b :: 0 <= b < k && StartsComment(lines[b]) ==> exists e :: b <= e < k && EndsComment(lines[e])
  }

  ghost predicate ReportsUnended(error: int, lines: seq<string>) {
    if error == 0 then forall k :: !Unended(lines, k) else Unended(lines, error - 1)
  }

  /** What the eraser promises of the lines before and after, and of its report. */
  ghost predicate Meets(before: seq<string>, after: seq<string>, error: int) {
    BlanksComments(before, after) && ReportsUnended(error, before)
  }

  lemma LinesMean(lines: seq<string>)
    ensures forall k :: 0 <= k < |lines| ==> (IsStart(lines[k]) <==> StartsComment(lines[k]))
    ensures forall k :: 0 <= k < |lines| ==> (IsEnd(lines[k]) <==> EndsComment(lines[k]))
  {
    forall k | 0 <= k < |lines| ensures IsStart(lines[k]) <==> StartsComment(lines[k]) { IsStartMeans(lines[k]); }
    forall k | 0 <= k < |lines| ensures IsEnd(lines[k]) <==> EndsComment(lines[k]) { IsEndMeans(lines[k]); }
  }

  /** A comment begun at `b` has not ended before line k. */
  ghost predicate OpenSince(lines: seq<string>, b: int, k: int) {
    0 <= b <= k < |lines| && IsStart(lines[b]) && forall j :: b <= j < k ==> !IsEnd(lines[j])
  }

  lemma {:induction false} InCommentMeans(lines: seq<string>, k: nat)
    requires k < |lines|
    ensures InComment(lines, k) <==> exists b :: OpenSince(lines, b, k)
    decreases k
  {
    if IsStart(lines[k]) { assert OpenSince(lines, k, k); }
    if k > 0 {
      var p := k - 1;
      InCommentMeans(lines, p);
      if !IsEnd(lines[p]) {
        if b :| OpenSince(lines, b, p) { assert OpenSince(lines, b, k); }
      }
      if b :| OpenSince(lines, b, k) && b < k { assert OpenSince(lines, b, p); }
    }
  }

  lemma EnclosedMeans(lines: seq<string>, k: nat)
    requires k < |lines|
    ensures InClosedComment(lines, k) <==> exists b, e :: Encloses(lines, b, k, e)
  {
    LinesMean(lines);
    InCommentMeans(lines, k);
    EndsFromMeans(lines, k);
    if InClosedComment(lines, k) {
      var b :| OpenSince(lines, b, k);
      var e :| k <= e < |lines| && IsEnd(lines[e]);
      assert Encloses(lines, b, k, e);
    }
    if b, e :| Encloses(lines, b, k, e) { assert OpenSince(lines, b, k); }
  }

  lemma UnendedMeans(lines: seq<string>, k: int)
    ensures IsUnterminated(lines, k) <==> Unended(lines, k)
  {
    LinesMean(lines);
    if 0 <= k < |lines| {
      EndsFromMeans(lines, k);
      if k > 0 {
        InCommentMeans(lines, k - 1);
        if IsUnterminated(lines, k) {
          forall b | 0 <= b < k && StartsComment(lines[b]) ensures exists e :: b <= e < k && EndsComment(lines[e]) {
            assert InComment(lines, k - 1) ==> IsEnd(lines[k - 1]);
            assert !OpenSince(lines, b, k - 1) || EndsComment(lines[k - 1]);
          }
        }
        if Unended(lines, k) && InComment(lines, k - 1) {
          var b :| OpenSince(lines, b, k - 1);
          var e :| b <= e < k && EndsComment(lines[e]);
        }
      }
    }
  }

  lemma ErasedMeans(lines: seq<string>)
    ensures BlanksComments(lines, Erased(lines))
    ensures forall error :: IsReport(error, lines) ==> ReportsUnended(error, lines)
  {
    forall k | 0 <= k < |lines| ensures InClosedComment(lines, k) <==> exists b, e :: Encloses(lines, b, k, e) {
      EnclosedMeans(lines, k);
    }
    forall k ensures IsUnterminated(lines, k) <==> Unended(lines, k) { UnendedMeans(lines, k); }
  }

  /** 0 when every comment ends, and otherwise the line, counting from 1, where one without an end begins. */
  ghost predicate IsReport(error: int, lines: seq<string>) {
    if error == 0 then forall k :: !IsUnterminated(lines, k) else IsUnterminated(lines, error - 1)
  }

  // ----- the code

  /** `k` is the first line from `from` on that starts a comment, or behind the last line. */
  ghost predicate FirstStart(lines: seq<string>, from: nat, k: nat) {
    && from <= k <= |lines| && (k < |lines| ==> StartsComment(lines[k]))
    && forall j :: from <= j < k ==> !StartsComment(lines[j])
  }

  ghost predicate FirstEnd(lines: seq<string>, from: nat, k: nat) {
    && from <= k <= |lines| && (k < |lines| ==> EndsComment(lines[k]))
    && forall j :: from <= j < k ==> !EndsComment(lines[j])
  }

  method FindNextMultiLineCommentStart(lines: array<string>, lineix0: nat, ghost now: seq<string>) returns (lineix: nat)
    requires lineix0 <= lines.Length && now == lines[..]
    ensures FirstStart(now, lineix0, lineix)
  {
    LinesMean(now);
    lineix := lineix0;
    while lineix < lines.Length
      invariant lineix0 <= lineix <= lines.Length
      invariant forall k :: lineix0 <= k < lineix ==> !IsStart(now[k])
    {
      if PairAt(Strip(lines[lineix]), 0, '/', '*') {
        if !PairFrom(Strip(lines[lineix]), 2, '*', '/') { return; }
      }
      lineix := lineix + 1;
    }
  }

  method FindNextMultiLineCommentEnd(lines: array<string>, lineix0: nat, ghost now: seq<string>) returns (lineix: nat)
    requires lineix0 <= lines.Length && now == lines[..]
    ensures FirstEnd(now, lineix0, lineix)
  {
    LinesMean(now);
    lineix := lineix0;
    while lineix < lines.Length
      invariant lineix0 <= lineix <= lines.Length
      invariant forall k :: lineix0 <= k < lineix ==> !IsEnd(now[k])
    {
      if IsEnd(lines[lineix]) { return; }
      lineix := lineix + 1;
    }
  }

  method RemoveMultiLineCommentsFromRange(lines: array<string>, begin: nat, end: nat)
    requires begin <= end <= lines.Length
    modifies lines
    ensures forall k :: 0 <= k < lines.Length ==> lines[k] == if begin <= k < end then BLANK else old(lines[k])
  {
    for i := begin to end
      invariant forall k :: 0 <= k < lines.Length ==> lines[k] == if begin <= k < i then BLANK else old(lines[k])
    {
      lines[i] := BLANK;
    }
  }

  /** Exactly the lines of the closed comments become blank comments, and a comment without an end is reported. */
  method RemoveMultiLineComments(lines: array<string>) returns (error: int)
    modifies lines
    ensures lines[..] == Erased(old(lines[..]))
    ensures IsReport(error, old(lines[..]))
    ensures Meets(old(lines[..]), lines[..], error)
  {
    ghost var before, now := lines[..], lines[..];
    var lineix := 0;
    while lineix < lines.Length
      invariant lineix <= lines.Length && lines[..] == now && ErasedUpTo(before, now, lineix)
    {
      var begin := FindNextMultiLineCommentStart(lines, lineix, now);
      if begin >= lines.Length {
        AfterPlainLines(before, now, lineix);
        return 0;
      }
      var end := FindNextMultiLineCommentEnd(lines, begin, now);
      if end >= lines.Length {
        AfterUnendedComment(before, now, lineix, begin);
        return begin + 1;
      }
      RemoveMultiLineCommentsFromRange(lines, begin, end + 1);
      AfterComment(before, now, lines[..], lineix, begin, end);
      now := lines[..];
      lineix := end + 1;
    }
    AfterPlainLines(before, now, lineix);
    return 0;
  }

  /** No comment reaches line k from before. */
  predicate Outside(lines: seq<string>, k: nat)
    requires k <= |lines|
  {
    k > 0 ==> !InComment(lines, k - 1) || IsEnd(lines[k - 1])
  }

  /** The first n lines are done and end a comment, the others are untouched. */
  ghost predicate ErasedUpTo(before: seq<string>, now: seq<string>, n: nat) {
    && n <= |before| == |now| && (n > 0 ==> IsEnd(before[n - 1]))
    && (forall k {:trigger now[k]} :: 0 <= k < n ==> now[k] == Erased(before)[k])
    && (forall k :: n <= k < |now| ==> now[k] == before[k])
    && (forall k :: 0 <= k < n ==> !IsUnterminated(before, k))
  }

  lemma AfterPlainLines(before: seq<string>, now: seq<string>, lineix: nat)
    requires ErasedUpTo(before, now, lineix) && FirstStart(now, lineix, |now|)
    ensures now == Erased(before) && IsReport(0, before) && Meets(before, now, 0)
  {
    ErasedMeans(before);
    LinesMean(now);
    OutsideUntil(before, lineix, |before|);
  }

  lemma AfterComment(before: seq<string>, now: seq<string>, now': seq<string>, lineix: nat, begin: nat, end: nat)
    requires ErasedUpTo(before, now, lineix) && end < |now| == |now'|
    requires FirstStart(now, lineix, begin) && FirstEnd(now, begin, end)
    requires forall k :: 0 <= k < |now| ==> now'[k] == if begin <= k < end + 1 then BLANK else now[k]
    ensures ErasedUpTo(before, now', end + 1)
  {
    LinesMean(now);
    OutsideUntil(before, lineix, begin);
    InsideUntil(before, begin, end);
    ClosedLines(before, begin, end);
  }

  lemma AfterUnendedComment(before: seq<string>, now: seq<string>, lineix: nat, begin: nat)
    requires ErasedUpTo(before, now, lineix) && begin < |now|
    requires FirstStart(now, lineix, begin) && FirstEnd(now, begin, |now|)
    ensures now == Erased(before) && IsReport(begin + 1, before) && Meets(before, now, begin + 1)
  {
    ErasedMeans(before);
    LinesMean(now);
    OutsideUntil(before, lineix, begin);
    UnendedLines(before, begin);
  }

  lemma {:induction false} OutsideUntil(lines: seq<string>, from: nat, until: nat)
    requires from <= until <= |lines| && Outside(lines, from)
    requires forall k :: from <= k < until ==> !IsStart(lines[k])
    ensures Outside(lines, until)
    ensures forall k :: from <= k < until ==> Erased(lines)[k] == lines[k] && !IsUnterminated(lines, k)
    decreases until
  {
    if from < until {
      OutsideUntil(lines, from, until - 1);
    }
  }

  lemma {:induction false} InsideUntil(lines: seq<string>, begin: nat, end: nat)
    requires begin < |lines| && begin <= end <= |lines| && IsStart(lines[begin])
    requires forall k :: begin <= k < end ==> !IsEnd(lines[k])
    ensures forall k :: begin <= k <= end && k < |lines| ==> InComment(lines, k)
    decreases end
  {
    if begin < end {
      InsideUntil(lines, begin, end - 1);
    }
  }

  lemma ClosedLines(lines: seq<string>, begin: nat, end: nat)
    requires begin <= end < |lines| && IsEnd(lines[end])
    requires forall k :: begin <= k < end ==> !IsEnd(lines[k])
    requires forall k :: begin <= k <= end ==> InComment(lines, k)
    ensures Outside(lines, end + 1)
    ensures forall k :: begin <= k <= end ==> Erased(lines)[k] == BLANK && !IsUnterminated(lines, k)
  {
    forall k | begin <= k <= end ensures EndsFrom(lines, k) {
      EndsFromMeans(lines, k);
    }
  }

  lemma UnendedLines(lines: seq<string>, begin: nat)
    requires begin < |lines| && IsStart(lines[begin]) && Outside(lines, begin)
    requires forall k :: begin <= k < |lines| ==> !IsEnd(lines[k])
    ensures IsUnterminated(lines, begin)
    ensures forall k :: begin <= k < |lines| ==> Erased(lines)[k] == lines[k]
  {
    forall k | begin <= k < |lines| ensures !EndsFrom(lines, k) {
      EndsFromMeans(lines, k);
    }
  }

  // ----- what the result looks like

  lemma BlankIsPlain()
    ensures !IsStart(BLANK) && IsEnd(BLANK)
  {
    assert StripLeft(BLANK) == BLANK && StripRight(BLANK) == BLANK;
  }

  lemma EndsFromBefore(lines: seq<string>, k: nat)
    requires 0 < k < |lines|
    ensures EndsFrom(lines, k - 1) <==> IsEnd(lines[k - 1]) || EndsFrom(lines, k)
  {
  }

  /** In the result, only the lines of an unterminated comment still belong to a comment. */
  lemma {:induction false} ErasedComments(lines: seq<string>, k: nat)
    requires k < |lines|
    ensures InComment(Erased(lines), k) <==> InComment(lines, k) && !EndsFrom(lines, k)
    decreases k
  {
    var once := Erased(lines);
    assert once[k] == BLANK ==> !IsStart(once[k]) by { BlankIsPlain(); }
    if k > 0 {
      ErasedComments(lines, k - 1);
      EndsFromBefore(lines, k);
      assert once[k - 1] == lines[k - 1] || InClosedComment(lines, k - 1);
    }
  }

  /** Erasing leaves no comment start, except inside a comment that was reported as unterminated. */
  lemma NoStartSurvives(lines: seq<string>, k: nat)
    requires k < |lines| && IsStart(Erased(lines)[k])
    ensures lines[k] == Erased(lines)[k] && !EndsFrom(lines, k)
  {
    ErasedComments(lines, k);
  }

  /** Running the eraser a second time changes nothing and reports the same line, if any. */
  lemma ErasingIsIdempotent(lines: seq<string>)
    ensures Erased(Erased(lines)) == Erased(lines)
    ensures forall k :: IsUnterminated(Erased(lines), k) <==> IsUnterminated(lines, k)
  {
    var once := Erased(lines);
    forall k | 0 <= k < |lines| ensures Erased(once)[k] == once[k] {
      ErasedComments(lines, k);
      if InComment(once, k) { StillUnended(lines, k); }
    }
    forall k ensures IsUnterminated(once, k) <==> IsUnterminated(lines, k) {
      if 0 <= k < |lines| { UnterminatedStays(lines, k); }
    }
  }

  lemma UnterminatedStays(lines: seq<string>, k: nat)
    requires k < |lines|
    ensures IsUnterminated(Erased(lines), k) <==> IsUnterminated(lines, k)
  {
    var once := Erased(lines);
    assert once[k] == BLANK ==> !IsStart(once[k]) by { BlankIsPlain(); }
    ErasedComments(lines, k);
    if k > 0 { ErasedComments(lines, k - 1); EndsFromBefore(lines, k); }
    if InComment(lines, k) && !EndsFrom(lines, k) { StillUnended(lines, k); }
    if IsStart(lines[k]) || IsStart(once[k]) {
      assert IsStart(lines[k]) ==> InComment(lines, k);
      assert IsStart(once[k]) ==> InComment(once, k);
    }
  }

  lemma StillUnended(lines: seq<string>, k: nat)
    requires k < |lines| && InComment(lines, k) && !EndsFrom(lines, k)
    ensures !EndsFrom(Erased(lines), k)
  {
    EndsFromMeans(lines, k);
    EndsFromMeans(Erased(lines), k);
    forall e | k <= e < |lines| ensures Erased(lines)[e] == lines[e] {
      EndsFromMeans(lines, e);
    }
  }
}
