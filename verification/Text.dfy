/** Whitespace stripping and ASCII case, as the session, prompt and preview code uses them. */
module Text {
  predicate IsSpace(c: char) {
    || '\t' <= c <= '\r' || '\U{1c}' <= c <= ' '
    || c == '\U{85}' || c == '\U{a0}' || c == '\U{1680}' || '\U{2000}' <= c <= '\U{200a}'
    || c == '\U{2028}' || c == '\U{2029}' || c == '\U{202f}' || c == '\U{205f}' || c == '\U{3000}'
  }

  function StripLeft(s: string): (r: string)
    ensures |r| <= |s| && r == s[|s| - |r|..]
    ensures r != [] ==> !IsSpace(r[0])
    ensures s != [] && !IsSpace(s[0]) ==> r == s
  {
    if s != [] && IsSpace(s[0]) then StripLeft(s[1..]) else s
  }

  function StripRight(s: string): (r: string)
    ensures r <= s
    ensures r != [] ==> !IsSpace(r[|r| - 1])
    ensures s != [] && !IsSpace(s[|s| - 1]) ==> r == s
  {
    if s != [] && IsSpace(s[|s| - 1]) then StripRight(s[..|s| - 1]) else s
  }

  function Strip(s: string): string {
    StripRight(StripLeft(s))
  }

  function Lower(s: string): (r: string)
    ensures |r| == |s|
  {
    seq(|s|, i requires 0 <= i < |s| => if 'A' <= s[i] <= 'Z' then s[i] - 'A' + 'a' else s[i])
  }

  /** Text that neither begins nor ends with whitespace is left alone. */
  lemma StripKeeps(s: string)
    requires s != [] && !IsSpace(s[0]) && !IsSpace(s[|s| - 1])
    ensures Strip(s) == s
  {
  }

  lemma StripTwice(s: string)
    ensures Strip(Strip(s)) == Strip(s)
  {
    var l, r := StripLeft(s), Strip(s);
    if r != [] {
      assert r[0] == l[0];
      StripKeeps(r);
    }
  }

  predicate Blank(s: string) {
    forall i | 0 <= i < |s| :: IsSpace(s[i])
  }

  lemma {:induction false} StripLeftTakesBlanks(s: string)
    ensures Blank(s[..|s| - |StripLeft(s)|])
    decreases |s|
  {
    hide IsSpace;
    if s != [] && IsSpace(s[0]) {
      StripLeftTakesBlanks(s[1..]);
      var n := |s[1..]| - |StripLeft(s[1..])|;
      assert s[..n + 1] == [s[0]] + s[1..][..n];
    }
  }

  lemma {:induction false} StripRightTakesBlanks(s: string)
    ensures Blank(s[|StripRight(s)|..])
    decreases |s|
  {
    hide IsSpace;
    if s != [] && IsSpace(s[|s| - 1]) {
      StripRightTakesBlanks(s[..|s| - 1]);
      var r := StripRight(s);
      assert s[|r|..] == s[..|s| - 1][|r|..] + [s[|s| - 1]];
    }
  }

  /** Stripping takes all the whitespace at both ends, and nothing else. */
  lemma StripMeans(s: string) returns (before: string, after: string)
    ensures s == before + Strip(s) + after && Blank(before) && Blank(after)
    ensures Strip(s) != [] ==> !IsSpace(Strip(s)[0]) && !IsSpace(Strip(s)[|Strip(s)| - 1])
  {
    hide *;
    var left := StripLeft(s);
    StripIs(s);
    StripEnds(s);
    StripLeftTakesBlanks(s);
    StripRightTakesBlanks(left);
    before, after := s[..|s| - |left|], left[|Strip(s)|..];
    CutBoth(s, left, Strip(s));
  }

  lemma StripIs(s: string)
    ensures Strip(s) == StripRight(StripLeft(s)) && |StripLeft(s)| <= |s| && StripLeft(s) == s[|s| - |StripLeft(s)|..]
    ensures Strip(s) <= StripLeft(s)
  {
  }

  lemma StripEnds(s: string)
    ensures Strip(s) != [] ==> !IsSpace(Strip(s)[0]) && !IsSpace(Strip(s)[|Strip(s)| - 1])
  {
    var l, r := StripLeft(s), Strip(s);
    if r != [] {
      assert r[0] == l[0];
    }
  }

  lemma CutBoth(s: string, left: string, strip: string)
    requires |left| <= |s| && left == s[|s| - |left|..] && strip <= left
    ensures s == s[..|s| - |left|] + strip + left[|strip|..]
  {
    assert left == strip + left[|strip|..];
  }

  /** Capitals do not count, and nothing but capitals changes. */
  lemma LowerMeans(s: string, i: nat)
    requires i < |s|
    ensures 'A' <= s[i] <= 'Z' ==> 'a' <= Lower(s)[i] <= 'z' && Lower(s)[i] - 'a' == s[i] - 'A'
    ensures !('A' <= s[i] <= 'Z') ==> Lower(s)[i] == s[i]
  {
  }
}
