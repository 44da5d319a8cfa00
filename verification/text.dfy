/** The pieces of Python's str that the modelled code relies on, over ASCII characters. */
module Text {

  /** str.isspace on an ASCII character. */
  predicate IsSpace(c: char) {
    9 <= c as int <= 13 || 28 <= c as int <= 32
  }

  predicate IsDigit(c: char) {
    '0' <= c <= '9'
  }

  function StripLeft(s: string): (t: string)
    ensures |t| <= |s| && t == s[|s| - |t|..]
    ensures t != "" ==> !IsSpace(t[0])
  {
    if s != "" && IsSpace(s[0]) then StripLeft(s[1..]) else s
  }

  function StripRight(s: string): (t: string)
    ensures |t| <= |s| && t == s[..|t|]
    ensures t != "" ==> !IsSpace(t[|t| - 1])
  {
    if s != "" && IsSpace(s[|s| - 1]) then StripRight(s[..|s| - 1]) else s
  }

  function Strip(s: string): string {
    StripRight(StripLeft(s))
  }

  predicate Spaces(s: string) {
    forall c | c in s :: IsSpace(c)
  }

  /** No white space at either end. */
  predicate Tight(s: string) {
    s == "" || (!IsSpace(s[0]) && !IsSpace(s[|s| - 1]))
  }

  lemma {:induction false} StripLeftSpaces(gap: string, s: string)
    requires Spaces(gap) && (s != "" ==> !IsSpace(s[0]))
    ensures StripLeft(gap + s) == s
  {
    if gap == "" {
      assert gap + s == s;
    } else {
      assert (gap + s)[1..] == gap[1..] + s && IsSpace(gap[0]);
      StripLeftSpaces(gap[1..], s);
    }
  }

  lemma {:induction false} StripRightSpaces(s: string, tail: string)
    requires Spaces(tail) && (s != "" ==> !IsSpace(s[|s| - 1]))
    ensures StripRight(s + tail) == s
  {
    if tail == "" {
      assert s + tail == s;
    } else {
      var n := |tail| - 1;
      assert (s + tail)[..|s| + n] == s + tail[..n] && IsSpace(tail[n]);
      StripRightSpaces(s, tail[..n]);
    }
  }

  lemma StripBetweenSpaces(gap: string, core: string, tail: string)
    requires Spaces(gap) && Spaces(tail) && core != "" && Tight(core)
    ensures Strip(gap + core + tail) == core
  {
    hide StripLeft, StripRight, Spaces;
    assert gap + core + tail == gap + (core + tail) && (core + tail)[0] == core[0];
    StripLeftSpaces(gap, core + tail);
    StripRightSpaces(core, tail);
  }

  lemma {:induction false} StrippedLeft(s: string) returns (gap: string)
    ensures Spaces(gap) && s == gap + StripLeft(s)
  {
    if s != "" && IsSpace(s[0]) {
      var rest := StrippedLeft(s[1..]);
      gap := [s[0]] + rest;
    } else {
      gap := "";
    }
  }

  lemma {:induction false} StrippedRight(s: string) returns (tail: string)
    ensures Spaces(tail) && s == StripRight(s) + tail
  {
    if s != "" && IsSpace(s[|s| - 1]) {
      var rest := StrippedRight(s[..|s| - 1]);
      tail := rest + [s[|s| - 1]];
      assert s == s[..|s| - 1] + [s[|s| - 1]];
    } else {
      tail := "";
    }
  }

  /** Stripping takes the white space at both ends away and nothing else. */
  lemma StripMeans(s: string, t: string)
    requires t != ""
    ensures Strip(s) == t <==>
      Tight(t) && exists gap, tail :: Spaces(gap) && Spaces(tail) && s == gap + t + tail
  {
    hide StripLeft, StripRight, Spaces;
    if Strip(s) == t {
      var left := StripLeft(s);
      var gap := StrippedLeft(s);
      var tail := StrippedRight(left);
      assert left != "" && t[0] == left[0];
      assert s == gap + (t + tail) == gap + t + tail;
    }
    if gap, tail :| Spaces(gap) && Spaces(tail) && s == gap + t + tail {
      if Tight(t) {
        StripBetweenSpaces(gap, t, tail);
      }
    }
  }
}
