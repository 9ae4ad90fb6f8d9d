/**
  Round, square and curly brackets: what it means for a text to be balanced, a plain stack matcher, and the
  theorem that the matcher finds exactly the bracket that closes a given one. No reference to cpplint here.
*/
module Dyck {
  predicate IsOpener(c: char) { c == '(' || c == '[' || c == '{' }

  predicate IsCloser(c: char) { c == ')' || c == ']' || c == '}' }

  /** Swaps each bracket with its partner. */
  function Flip(c: char): char {
    match c
    case '(' => ')'
    case ')' => '('
    case '[' => ']'
    case ']' => '['
    case '{' => '}'
    case '}' => '{'
    case _ => c
  }

  /** The Dyck language over three kinds of brackets, with other characters anywhere. */
  ghost predicate Balanced(s: string)
    decreases |s|, 1
  {
    || s == []
    || (!IsOpener(s[0]) && !IsCloser(s[0]) && Balanced(s[1..]))
    || exists k :: ClosesAt(s, k)
  }

  /** The opener s[0] is closed by s[k], and both what is inside and what follows is balanced. */
  ghost predicate ClosesAt(s: string, k: int)
    decreases |s|, 0
  {
    0 < k < |s| && IsOpener(s[0]) && s[k] == Flip(s[0]) && Balanced(s[1..k]) && Balanced(s[k + 1..])
  }

  lemma DropDrop<T>(s: seq<T>, d: nat, i: nat)
    requires d <= |s| && i <= |s| - d
    ensures s[d..][i..] == s[d + i..]
  {
    forall k | 0 <= k < |s| - d - i ensures s[d..][i..][k] == s[d + i..][k] {}
  }

  lemma SliceSlice<T>(s: seq<T>, a: nat, b: nat, i: nat, j: nat)
    requires a <= b <= |s| && i <= j <= b - a
    ensures s[a..b][i..j] == s[a + i..a + j]
  {
    forall k | 0 <= k < j - i ensures s[a..b][i..j][k] == s[a + i..a + j][k] {}
  }

  /** text[o] is an opener, text[c] its partner, and what lies between them is balanced. */
  ghost predicate Matched(text: string, o: int, c: int) {
    0 <= o < c < |text| && IsOpener(text[o]) && text[c] == Flip(text[o]) && Balanced(text[o + 1..c])
  }

  // ----- the plain matcher

  datatype Scan = Found(end: int) | Broken | Unfinished(stack: string)

  function Shift(r: Scan, n: int): Scan { if r.Found? then Found(r.end + n) else r }

  /**
    Reads `s` with a stack of open brackets; Found(e) when the bracket at the bottom of the stack is
    closed by s[e - 1].
  */
  function Plain(s: string, stack: string): Scan
    decreases |s|
  {
    if s == [] then Unfinished(stack)
    else if IsOpener(s[0]) then Shift(Plain(s[1..], stack + [s[0]]), 1)
    else if !IsCloser(s[0]) then Shift(Plain(s[1..], stack), 1)
    else if stack == [] || stack[|stack| - 1] != Flip(s[0]) then Broken
    else if |stack| == 1 then Found(1)
    else Shift(Plain(s[1..], stack[..|stack| - 1]), 1)
  }

  lemma {:induction false} PlainConcat(a: string, b: string, stack: string)
    ensures Plain(a + b, stack) ==
      var r := Plain(a, stack); if r.Unfinished? then Shift(Plain(b, r.stack), |a|) else r
    decreases |a|
  {
    if a == [] {
      assert a + b == b;
    } else {
      assert (a + b)[1..] == a[1..] + b;
      PlainConcat(a[1..], b, stack + [a[0]]);
      PlainConcat(a[1..], b, stack);
      if stack != [] { PlainConcat(a[1..], b, stack[..|stack| - 1]); }
    }
  }

  /** `s` closes the brackets of `stack` one after the other, with balanced text before each. */
  ghost predicate Unwinds(s: string, stack: string)
    decreases |stack|, 1
  {
    if stack == [] then s == [] else exists k :: UnwindsAt(s, stack, k)
  }

  ghost predicate UnwindsAt(s: string, stack: string, k: int)
    requires stack != []
    decreases |stack|, 0
  {
    && 0 <= k < |s| && s[k] == Flip(stack[|stack| - 1])
    && Balanced(s[..k]) && Unwinds(s[k + 1..], stack[..|stack| - 1])
  }

  lemma UnwindAfterNeutral(s: string, stack: string)
    requires s != [] && stack != [] && !IsOpener(s[0]) && !IsCloser(s[0]) && Unwinds(s[1..], stack)
    ensures Unwinds(s, stack)
  {
    var k :| UnwindsAt(s[1..], stack, k);
    assert [s[0]][1..] == [] && Balanced([s[0]]);
    assert s == [s[0]] + s[1..];
    UnwindAfterBalanced([s[0]], s[1..], stack, k);
  }

  lemma UnwindTwice(t: string, stack: string, c: char) returns (k: nat, j: nat)
    requires stack != [] && Unwinds(t, stack + [c])
    ensures k < |t| && t[k] == Flip(c) && Balanced(t[..k]) && UnwindsAt(t[k + 1..], stack, j)
  {
    var deeper := stack + [c];
    assert deeper[..|deeper| - 1] == stack;
    k :| UnwindsAt(t, deeper, k);
    assert Unwinds(t[k + 1..], stack);
    j :| UnwindsAt(t[k + 1..], stack, j);
  }

  lemma UnwindAfterOpener(s: string, stack: string)
    requires s != [] && stack != [] && IsOpener(s[0]) && Unwinds(s[1..], stack + [s[0]])
    ensures Unwinds(s, stack)
  {
    var t := s[1..];
    var k, j := UnwindTwice(t, stack, s[0]);
    var u, block := t[k + 1..], [s[0]] + t[..k] + [Flip(s[0])];
    BalancedSingle(block, t[..k], s[0]);
    assert s == block + u;
    UnwindAfterBalanced(block, u, stack, j);
  }

  lemma UnwindAfterBalanced(block: string, u: string, stack: string, j: nat)
    requires stack != [] && Balanced(block) && UnwindsAt(u, stack, j)
    ensures Unwinds(block + u, stack)
  {
    var s, e := block + u, |block| + j;
    BalancedConcat(block, u[..j]);
    assert s[..e] == block + u[..j] && s[e + 1..] == u[j + 1..];
    assert UnwindsAt(s, stack, e);
  }

  lemma UnwindAfterCloser(s: string, stack: string)
    requires s != [] && stack != [] && s[0] == Flip(stack[|stack| - 1]) && Unwinds(s[1..], stack[..|stack| - 1])
    ensures Unwinds(s, stack)
  {
    assert s[..0] == [];
    assert UnwindsAt(s, stack, 0);
  }

  lemma {:induction false} FoundUnwinds(s: string, stack: string)
    requires stack != [] && Plain(s, stack).Found?
    requires forall i :: 0 <= i < |stack| ==> IsOpener(stack[i])
    ensures 0 < Plain(s, stack).end <= |s| && Unwinds(s[..Plain(s, stack).end], stack)
    decreases |s|
  {
    var e, n := Plain(s, stack).end, |stack| - 1;
    if IsOpener(s[0]) {
      FoundUnwinds(s[1..], stack + [s[0]]);
      assert s[..e][1..] == s[1..][..e - 1];
      UnwindAfterOpener(s[..e], stack);
    } else if !IsCloser(s[0]) {
      FoundUnwinds(s[1..], stack);
      assert s[..e][1..] == s[1..][..e - 1];
      UnwindAfterNeutral(s[..e], stack);
    } else {
      if n > 0 { FoundUnwinds(s[1..], stack[..n]); }
      assert s[..e][1..] == if n > 0 then s[1..][..e - 1] else [];
      UnwindAfterCloser(s[..e], stack);
    }
  }

  /** A balanced text leaves the matcher as it was. */
  lemma {:induction false} PlainSkipsBalanced(d: string, s: string, stack: string)
    requires Balanced(d) && stack != []
    ensures Plain(d + s, stack) == Shift(Plain(s, stack), |d|)
    decreases |d|
  {
    if d == [] {
      assert d + s == s;
    } else if !IsOpener(d[0]) {
      assert (d + s)[1..] == d[1..] + s;
      PlainSkipsBalanced(d[1..], s, stack);
    } else {
      var k :| ClosesAt(d, k);
      var deeper, rest := stack + [d[0]], d[k + 1..] + s;
      assert (d + s)[1..] == d[1..k] + ([d[k]] + rest);
      PlainSkipsBalanced(d[1..k], [d[k]] + rest, deeper);
      assert ([d[k]] + rest)[1..] == rest && deeper[..|deeper| - 1] == stack;
      PlainSkipsBalanced(d[k + 1..], s, stack);
    }
  }

  lemma FlipOpener(c: char)
    ensures IsOpener(c) ==> IsCloser(Flip(c)) && Flip(Flip(c)) == c
  {
  }

  lemma {:induction false} UnwindsFound(s: string, rest: string, stack: string)
    requires stack != [] && Unwinds(s, stack)
    requires forall i :: 0 <= i < |stack| ==> IsOpener(stack[i])
    ensures Plain(s + rest, stack) == Found(|s|)
    decreases |stack|
  {
    var n := |stack| - 1;
    var k :| UnwindsAt(s, stack, k);
    var tail := s[k..] + rest;
    assert s + rest == s[..k] + tail;
    PlainSkipsBalanced(s[..k], tail, stack);
    assert tail[0] == s[k] && tail[1..] == s[k + 1..] + rest;
    FlipOpener(stack[n]);
    if n > 0 {
      UnwindsFound(s[k + 1..], rest, stack[..n]);
    } else {
      assert Unwinds(s[k + 1..], []);
    }
  }

  /** Started on an opener, the matcher ends just after its partner, and fails exactly when there is none. */
  lemma PlainFindsMatch(text: string, o: nat, c: int)
    requires o < |text| && IsOpener(text[o])
    ensures Plain(text[o..], []) == Found(c + 1 - o) <==> Matched(text, o, c)
  {
    var s, stack := text[o + 1..], [text[o]];
    assert text[o..][1..] == s && [] + [text[o]] == stack;
    if Plain(text[o..], []) == Found(c + 1 - o) {
      FoundUnwinds(s, stack);
      var t := s[..c - o];
      var k :| UnwindsAt(t, stack, k);
      assert Unwinds(t[k + 1..], []);
      assert t[..k] == text[o + 1..c];
    }
    if Matched(text, o, c) {
      var t, rest := text[o + 1..c + 1], text[c + 1..];
      SliceSlice(text, o + 1, c + 1, 0, c - o - 1);
      assert t[c - o..] == [] && Unwinds([], stack[..0]) && t[c - o - 1] == text[c];
      assert UnwindsAt(t, stack, c - o - 1);
      assert s == t + rest;
      UnwindsFound(t, rest, stack);
    }
  }

  lemma MatchFromPlain(text: string, o: nat)
    requires o < |text| && IsOpener(text[o])
    ensures Plain(text[o..], []).Found? ==> Matched(text, o, Plain(text[o..], []).end + o - 1)
    ensures !Plain(text[o..], []).Found? ==> forall c :: !Matched(text, o, c)
  {
    forall c ensures Plain(text[o..], []) == Found(c + 1 - o) <==> Matched(text, o, c) {
      PlainFindsMatch(text, o, c);
    }
    var r := Plain(text[o..], []);
    if r.Found? {
      PlainFindsMatch(text, o, r.end + o - 1);
    }
  }

  /** The match is the end of the shortest non-empty balanced stretch that starts at the opener. */
  lemma MatchIsShortestBalanced(text: string, o: nat, c: int)
    requires o < |text| && IsOpener(text[o])
    ensures Matched(text, o, c) <==>
      (&& o < c < |text| && Balanced(text[o..c + 1])
       && forall e :: o < e <= c ==> !Balanced(text[o..e]))
  {
    if Matched(text, o, c) {
      MatchIsBalanced(text, o, c);
      forall e | o < e <= c ensures !Balanced(text[o..e]) {
        if Balanced(text[o..e]) {
          var d := ClosesWithin(text, o, e);
          PlainFindsMatch(text, o, d);
          PlainFindsMatch(text, o, c);
        }
      }
    }
    if o < c < |text| && Balanced(text[o..c + 1]) && forall e :: o < e <= c ==> !Balanced(text[o..e]) {
      var d := ClosesWithin(text, o, c + 1);
      MatchIsBalanced(text, o, d);
    }
  }

  lemma MatchIsBalanced(text: string, o: nat, c: int)
    requires Matched(text, o, c)
    ensures Balanced(text[o..c + 1])
  {
    var s := text[o..c + 1];
    SliceSlice(text, o, c + 1, 1, c - o);
    assert s[c - o + 1..] == [];
    assert ClosesAt(s, c - o);
  }

  lemma ClosesWithin(text: string, o: nat, e: nat) returns (d: nat)
    requires o < e <= |text| && IsOpener(text[o]) && Balanced(text[o..e])
    ensures o < d < e && Matched(text, o, d)
  {
    var s := text[o..e];
    assert s[0] == text[o];
    var k :| ClosesAt(s, k);
    d := o + k;
    SliceSlice(text, o, e, 1, k);
  }

  // ----- reading a text backwards

  function Mirror(s: string): (r: string)
    ensures |r| == |s|
    ensures forall i :: 0 <= i < |s| ==> r[i] == Flip(s[|s| - 1 - i])
  {
    seq(|s|, i requires 0 <= i < |s| => Flip(s[|s| - 1 - i]))
  }

  lemma MirrorConcat(a: string, b: string)
    ensures Mirror(a + b) == Mirror(b) + Mirror(a)
  {
  }

  lemma MirrorTwice(s: string)
    ensures Mirror(Mirror(s)) == s
  {
  }

  lemma {:induction false} BalancedConcat(a: string, b: string)
    requires Balanced(a) && Balanced(b)
    ensures Balanced(a + b)
    decreases |a|
  {
    if a == [] {
      assert a + b == b;
    } else if !IsOpener(a[0]) {
      assert (a + b)[1..] == a[1..] + b;
      BalancedConcat(a[1..], b);
    } else {
      var k :| ClosesAt(a, k);
      BalancedConcat(a[k + 1..], b);
      var s := a + b;
      assert s[1..k] == a[1..k] && s[k + 1..] == a[k + 1..] + b;
      assert ClosesAt(s, k);
    }
  }

  lemma BalancedSingle(s: string, inner: string, o: char)
    requires IsOpener(o) && Balanced(inner) && s == [o] + inner + [Flip(o)]
    ensures Balanced(s)
  {
    var k := |inner| + 1;
    assert s[1..k] == inner && s[k + 1..] == [];
    assert ClosesAt(s, k);
  }

  lemma {:induction false} BalancedMirror(s: string)
    requires Balanced(s)
    ensures Balanced(Mirror(s))
    decreases |s|
  {
    if s != [] {
      if !IsOpener(s[0]) {
        BalancedMirror(s[1..]);
        assert s == [s[0]] + s[1..];
        MirrorConcat([s[0]], s[1..]);
        assert Mirror([s[0]])[1..] == [] && Balanced(Mirror([s[0]]));
        BalancedConcat(Mirror(s[1..]), Mirror([s[0]]));
      } else {
        var k :| ClosesAt(s, k);
        BalancedMirror(s[1..k]);
        BalancedMirror(s[k + 1..]);
        MirrorBlock(s[..k + 1], s[1..k]);
        assert s == s[..k + 1] + s[k + 1..];
        MirrorConcat(s[..k + 1], s[k + 1..]);
        BalancedConcat(Mirror(s[k + 1..]), Mirror(s[..k + 1]));
      }
    }
  }

  lemma MirrorBlock(block: string, inner: string)
    requires |block| == |inner| + 2 && inner == block[1..|block| - 1] && Balanced(Mirror(inner))
    requires IsOpener(block[0]) && block[|block| - 1] == Flip(block[0])
    ensures Balanced(Mirror(block))
  {
    FlipOpener(block[0]);
    var m := Mirror(block);
    assert m == [block[0]] + Mirror(inner) + [Flip(block[0])];
    BalancedSingle(m, Mirror(inner), block[0]);
  }

  lemma BalancedUnmirror(s: string)
    requires Balanced(Mirror(s))
    ensures Balanced(s)
  {
    BalancedMirror(Mirror(s));
    MirrorTwice(s);
  }

  lemma MatchedPrefix(text: string, o: int, c: nat)
    requires c < |text|
    ensures Matched(text[..c + 1], o, c) <==> Matched(text, o, c)
  {
    if 0 <= o < c {
      assert text[..c + 1][o + 1..c] == text[o + 1..c];
    }
  }

  /** Read backwards with the brackets flipped, the same brackets match. */
  lemma MatchedMirror(s: string, o: int, c: int)
    requires c == |s| - 1
    ensures Matched(s, o, c) <==> Matched(Mirror(s), 0, c - o)
  {
    var m := Mirror(s);
    if 0 <= o < c {
      assert m[1..c - o] == Mirror(s[o + 1..c]);
      assert m[0] == Flip(s[c]) && m[c - o] == Flip(s[o]);
      FlipBoth(s[o], s[c]);
      if Balanced(s[o + 1..c]) { BalancedMirror(s[o + 1..c]); }
      if Balanced(m[1..c - o]) { BalancedUnmirror(s[o + 1..c]); }
    }
  }

  lemma FlipBoth(o: char, c: char)
    ensures IsOpener(o) && c == Flip(o) <==> IsOpener(Flip(c)) && Flip(o) == Flip(Flip(c))
  {
  }

  /** The backward matcher, started on the closer at `c`, stops on its partner. */
  lemma BackwardFindsMatch(text: string, o: int, c: nat)
    requires c < |text| && IsCloser(text[c])
    ensures Plain(Mirror(text[..c + 1]), []) == Found(c + 1 - o) <==> Matched(text, o, c)
  {
    var m := Mirror(text[..c + 1]);
    assert m[0..] == m && m[0] == Flip(text[c]);
    PlainFindsMatch(m, 0, c - o);
    MatchedMirror(text[..c + 1], o, c);
    MatchedPrefix(text, o, c);
  }

  /** A bracket has at most one partner, whichever side one starts from. */
  lemma MatchUnique(text: string, o: int, c: int, o': int, c': int)
    requires Matched(text, o, c) && Matched(text, o', c')
    ensures o == o' <==> c == c'
  {
    PlainFindsMatch(text, o, c);
    PlainFindsMatch(text, o', c');
    BackwardFindsMatch(text, o, c);
    BackwardFindsMatch(text, o', c');
  }
}
