/** The few string tests that the modelled cpplint functions make, written out for ASCII text. */
module PyText {
  predicate IsSpace(c: char) {
    c == ' ' || c == '\t' || c == '\n' || c == '\r' || c == 11 as char || c == 12 as char
  }

  /** Blank, tab, line feed, carriage return, vertical tab and form feed. */
  lemma SpaceCharacters(c: char)
    ensures IsSpace(c) <==> c in [' ', '\t', '\n', '\r', '\U{B}', '\U{C}']
  {
  }

  predicate IsWordChar(c: char) {
    'a' <= c <= 'z' || 'A' <= c <= 'Z' || '0' <= c <= '9' || c == '_'
  }

  function StripRight(s: string): string {
    if s != [] && IsSpace(s[|s| - 1]) then StripRight(s[..|s| - 1]) else s
  }

  function StripLeft(s: string): string {
    if s != [] && IsSpace(s[0]) then StripLeft(s[1..]) else s
  }

  /** s.strip() */
  function Strip(s: string): string { StripRight(StripLeft(s)) }

  /** s[i:i+2] is the two characters a and b. */
  predicate PairAt(s: string, i: int, a: char, b: char) {
    0 <= i < |s| - 1 && s[i] == a && s[i + 1] == b
  }

  /** s.find(a + b, from) >= 0 */
  predicate PairFrom(s: string, from: nat, a: char, b: char)
    decreases |s| - from
  {
    from < |s| && (PairAt(s, from, a, b) || PairFrom(s, from + 1, a, b))
  }

  predicate EndsWith(s: string, suffix: string) {
    |suffix| <= |s| && s[|s| - |suffix|..] == suffix
  }

  /** Search(r'\boperator\s*$', s) */
  predicate EndsInOperator(s: string) {
    var t := StripRight(s);
    EndsWith(t, "operator") && (|t| == 8 || !IsWordChar(t[|t| - 9]))
  }

  /** Only spaces from `lo` up to `hi`. */
  ghost predicate Spaces(s: string, lo: int, hi: int) { forall i :: 0 <= lo <= i < hi <= |s| ==> IsSpace(s[i]) }

  /** StripRight cuts off spaces, as many as there are. */
  lemma {:induction false} StripRightIs(s: string)
    ensures var n := |StripRight(s)|;
      n <= |s| && StripRight(s) == s[..n] && Spaces(s, n, |s|) && (n > 0 ==> !IsSpace(s[n - 1]))
  {
    if s != [] && IsSpace(s[|s| - 1]) {
      StripRightIs(s[..|s| - 1]);
      var n := |StripRight(s)|;
      assert forall i :: n <= i < |s| - 1 ==> s[i] == s[..|s| - 1][i];
    }
  }

  lemma {:induction false} StripLeftIs(s: string)
    ensures var n := |s| - |StripLeft(s)|;
      n >= 0 && StripLeft(s) == s[n..] && Spaces(s, 0, n) && (n < |s| ==> !IsSpace(s[n]))
  {
    if s != [] && IsSpace(s[0]) {
      StripLeftIs(s[1..]);
      var n := |s| - |StripLeft(s)|;
      assert forall i :: 1 <= i < |s| ==> s[i] == s[1..][i - 1];
    }
  }

  /** What s.strip() leaves: s[a..b], with spaces before and behind, and none at its own ends. */
  lemma StripIs(s: string) returns (a: nat, b: nat)
    ensures a <= b <= |s| && Strip(s) == s[a..b] && Spaces(s, 0, a) && Spaces(s, b, |s|)
    ensures a < b ==> !IsSpace(s[a]) && !IsSpace(s[b - 1])
  {
    StripLeftIs(s);
    var left := StripLeft(s);
    StripRightIs(left);
    a := |s| - |left|;
    b := a + |StripRight(left)|;
    assert s[a..][..b - a] == s[a..b];
    assert forall i :: a <= i < |s| ==> s[i] == left[i - a];
  }

  lemma {:induction false} PairFromMeans(s: string, from: nat, a: char, b: char)
    ensures PairFrom(s, from, a, b) <==> exists i :: from <= i && PairAt(s, i, a, b)
    decreases |s| - from
  {
    if from < |s| { PairFromMeans(s, from + 1, a, b); }
  }

  /** The word operator stands at `k`, spaces behind it, and no longer word around it. */
  ghost predicate OperatorAt(s: string, k: int) {
    0 <= k <= |s| - 8 && s[k..k + 8] == "operator" && Spaces(s, k + 8, |s|) && (k > 0 ==> !IsWordChar(s[k - 1]))
  }

  lemma EndsInOperatorMeans(s: string)
    ensures EndsInOperator(s) <==> exists k :: OperatorAt(s, k)
  {
    StripRightIs(s);
    var t := StripRight(s);
    var n := |t|;
    if EndsInOperator(s) {
      assert s[n - 8..n - 8 + 8] == t[n - 8..];
      assert OperatorAt(s, n - 8);
    }
    if k :| OperatorAt(s, k) {
      assert s[k + 7] == s[k..k + 8][7] == "operator"[7];
      assert n == k + 8 && t[n - 8..] == s[k..k + 8];
      assert k > 0 ==> t[n - 9] == s[k - 1];
    }
  }

  lemma {:induction false} StripRightDrops(s: string)
    ensures StripRight(s) == s || (s != [] && IsSpace(s[|s| - 1]))
  {
  }

  /** Whatever precedes an angle bracket that is skipped as part of an operator name is no bracket. */
  lemma OperatorEndsPlainly(s: string)
    requires EndsInOperator(s)
    ensures s != [] && (s[|s| - 1] == 'r' || IsSpace(s[|s| - 1]))
  {
    if StripRight(s) == s {
      assert s[|s| - 8..][7] == "operator"[7];
    } else {
      StripRightDrops(s);
    }
  }
}
