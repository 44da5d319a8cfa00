/**
 The ways one list of tokens may be spelled as clause text: words in any letter case, with or without
 backquotes, literals with or without a character-set introducer, and any white space between tokens,
 or none where two of them do not run together. The module proves that no spelling changes the tokens.
 */
module CheckSpellings {
  import opened Results
  import opened Text
  import opened CheckTokens
  import CheckClause

  datatype Form = Plain(written: string) | Backquoted(word: string) | Introduced(name: string, literal: string)

  /** A token as it is spelled, with the white space in front of it. */
  datatype Piece = Piece(gap: string, form: Form)

  /** The token a form stands for. */
  function TokenOf(f: Form): string {
    match f
    case Plain(w) => if IsWordToken(Lower(w)) then Lower(w) else w
    case Backquoted(w) => Lower(w)
    case Introduced(_, literal) => literal
  }

  predicate Legal(f: Form) {
    match f
    case Plain(_) => IsToken(TokenOf(f))
    case Backquoted(w) => IsWordToken(Lower(w))
    case Introduced(name, literal) => name != "" && (forall c | c in name :: IsAlnum(c)) && IsLiteralToken(literal)
  }

  function Spelled(f: Form): string {
    match f
    case Plain(w) => w
    case Backquoted(w) => "`" + w + "`"
    case Introduced(name, literal) => "_" + name + literal
  }

  /** Text that starts with this character may follow the form directly. */
  predicate MayFollow(f: Form, c: char) {
    match f
    case Plain(w) => w != "" && Apart(w, c)
    case Backquoted(_) => true
    case Introduced(_, literal) => c != '\''
  }

  function TextOf(ps: seq<Piece>, tail: string): string {
    if ps == [] then tail else ps[0].gap + Spelled(ps[0].form) + TextOf(ps[1..], tail)
  }

  function TokensOf(ps: seq<Piece>): seq<string> {
    if ps == [] then [] else [TokenOf(ps[0].form)] + TokensOf(ps[1..])
  }

  predicate WellSpelled(ps: seq<Piece>, tail: string) {
    if ps == [] then Spaces(tail) else
      var rest := TextOf(ps[1..], tail);
      && Spaces(ps[0].gap) && Legal(ps[0].form)
      && (rest != "" ==> MayFollow(ps[0].form, rest[0]))
      && WellSpelled(ps[1..], tail)
  }

  lemma FirstPiece(ps: seq<Piece>, tail: string)
    requires ps != []
    ensures TextOf(ps, tail) == ps[0].gap + Spelled(ps[0].form) + TextOf(ps[1..], tail)
    ensures TokensOf(ps) == [TokenOf(ps[0].form)] + TokensOf(ps[1..])
    ensures WellSpelled(ps, tail) <==>
      && Spaces(ps[0].gap) && Legal(ps[0].form)
      && (TextOf(ps[1..], tail) != "" ==> MayFollow(ps[0].form, TextOf(ps[1..], tail)[0]))
      && WellSpelled(ps[1..], tail)
  {
    hide Legal, MayFollow, Spelled, Spaces, TokenOf;
  }

  // ----- Scanning one form -----

  /** An underscore here may start an introducer. */
  predicate StartsClean(s: string, i: nat) {
    0 < i < |s| && s[i] == '_' ==> !IsWordChar(s[i - 1])
  }

  lemma SpaceIsSkipped(s: string, i: nat)
    requires i < |s| && (IsSpace(s[i]) || s[i] == '`')
    ensures ScanAt(s, i) == Skip(i + 1)
  {
  }

  lemma {:induction false} GapIsSkipped(s: string, i: nat, n: nat)
    requires i + n <= |s| && forall k | i <= k < i + n :: IsSpace(s[k])
    ensures TokensFrom(s, i) == TokensFrom(s, i + n)
    decreases n
  {
    hide TokensFrom, ScanAt;
    if n > 0 {
      SpaceIsSkipped(s, i);
      TokensFromStep(s, i);
      GapIsSkipped(s, i + 1, n - 1);
    }
  }

  lemma {:induction false} NameEnds(s: string, i: nat, n: nat)
    requires i + n < |s| && (forall k | i <= k < i + n :: IsAlnum(s[k])) && s[i + n] == '\''
    ensures AlnumEnd(s, i) == i + n
    decreases n
  {
    if n > 0 {
      NameEnds(s, i + 1, n - 1);
    }
  }

  /** An underscore and a name in front of a quote, with no word in front of them, are skipped. */
  lemma IntroducerIsSkipped(s: string, i: nat, name: string)
    requires HasAt(s, i, "_" + name + "'") && name != "" && (forall c | c in name :: IsAlnum(c)) && StartsClean(s, i)
    ensures ScanAt(s, i) == Skip(i + 1 + |name|)
  {
    var whole := "_" + name + "'";
    assert forall k | i <= k < i + |whole| :: s[k] == whole[k - i];
    assert forall k | 0 <= k < |name| :: whole[k + 1] == name[k];
    NameEnds(s, i + 1, |name|);
  }

  lemma {:induction false} WordEndsAt(s: string, i: nat, end: nat)
    requires i <= end < |s| && (forall k | i <= k < end :: IsWordChar(s[k])) && !IsWordChar(s[end])
    ensures WordEnd(s, i) == end
    decreases end - i
  {
    if i < end {
      WordEndsAt(s, i + 1, end);
    }
  }

  /** Behind a letter, a digit or an underscore the same text is a word of its own. */
  lemma UnderscoreInsideIntroducesNothing(s: string, i: nat, name: string)
    requires HasAt(s, i, "_" + name + "'") && (forall c | c in name :: IsAlnum(c)) && i > 0 && IsWordChar(s[i - 1])
    ensures ScanAt(s, i) == Emit("_" + Lower(name), i + 1 + |name|)
  {
    var whole, end := "_" + name + "'", i + 1 + |name|;
    assert forall k | i <= k <= end :: s[k] == whole[k - i];
    forall k | i < k < end
      ensures IsWordChar(s[k])
    {
      assert whole[k - i] == name[k - i - 1] && name[k - i - 1] in name;
      assert s[k] == whole[k - i];
    }
    assert !IsWordChar(s[end]) by {
      assert s[end] == whole[end - i] == '\'';
    }
    WordEndsAt(s, i + 1, end);
    assert s[i..end] == "_" + name;
    assert Lower("_" + name) == "_" + Lower(name);
  }

  lemma PlainIsScanned(s: string, i: nat, w: string)
    requires Legal(Plain(w)) && StandsAt(s, i, w)
    ensures i < |s| && ScanAt(s, i) == Emit(TokenOf(Plain(w)), i + |w|)
  {
    hide IsWordToken, ScanAt, StandsAt;
    if IsWordToken(Lower(w)) {
      ScanWord(s, i, w);
    } else {
      ScanToken(s, i, w);
    }
  }

  /** Scanning a form gives its token and goes on behind it. */
  lemma FormIsScanned(s: string, i: nat, f: Form)
    requires Legal(f) && HasAt(s, i, Spelled(f)) && StartsClean(s, i)
    requires f.Plain? ==> f.written != ""
    requires i + |Spelled(f)| < |s| ==> MayFollow(f, s[i + |Spelled(f)|])
    ensures TokensFrom(s, i) == Prefixed([TokenOf(f)], TokensFrom(s, i + |Spelled(f)|))
  {
    hide TokensFrom, ScanAt, Prefixed, IsWordToken, IsLiteralToken;
    match f
    case Plain(w) =>
      PlainIsScanned(s, i, w);
      TokensFromStep(s, i);
    case Backquoted(w) =>
      BackquotedIsScanned(s, i, w);
    case Introduced(name, literal) =>
      IntroducedIsScanned(s, i, name, literal);
  }

  lemma HasBoth(s: string, i: nat, a: string, b: string)
    requires HasAt(s, i, a + b)
    ensures HasAt(s, i, a) && HasAt(s, i + |a|, b)
  {
    var whole := s[i..i + |a + b|];
    assert whole[..|a|] == s[i..i + |a|] && whole[|a|..] == s[i + |a|..i + |a| + |b|];
  }

  lemma BackquotedIsScanned(s: string, i: nat, w: string)
    requires IsWordToken(Lower(w)) && HasAt(s, i, "`" + w + "`")
    ensures TokensFrom(s, i) == Prefixed([Lower(w)], TokensFrom(s, i + |w| + 2))
  {
    hide TokensFrom, ScanAt, IsWordToken, Prefixed;
    var whole, last := "`" + w + "`", i + 1 + |w|;
    assert s[i] == whole[0] && s[last] == whole[1 + |w|];
    assert "`" + w + "`" == "`" + (w + "`");
    HasBoth(s, i, "`", w + "`");
    HasBoth(s, i + 1, w, "`");
    WordIsNotEmpty(w);
    SpaceIsSkipped(s, i);
    TokensFromStep(s, i);
    ScanWord(s, i + 1, w);
    TokensFromStep(s, i + 1);
    SpaceIsSkipped(s, last);
    TokensFromStep(s, last);
  }

  lemma WordIsNotEmpty(w: string)
    requires IsWordToken(Lower(w))
    ensures w != "" && Apart(w, '`')
  {
  }

  lemma LiteralIsQuoted(t: string)
    requires IsLiteralToken(t)
    ensures |t| >= 2 && t[0] == '\'' && t[|t| - 1] == '\''
    ensures forall c | c != '\'' :: Apart(t, c)
  {
    LiteralClosesWithQuote(t, 1);
  }

  lemma IntroducedText(s: string, i: nat, name: string, literal: string)
    requires IsLiteralToken(literal) && HasAt(s, i, "_" + name + literal)
    ensures HasAt(s, i, "_" + name + "'") && HasAt(s, i + 1 + |name|, literal)
  {
    hide IsLiteralToken, HasAt;
    LiteralIsQuoted(literal);
    assert literal == "'" + literal[1..];
    assert "_" + name + literal == "_" + name + "'" + literal[1..];
    HasBoth(s, i, "_" + name, literal);
    HasBoth(s, i, "_" + name + "'", literal[1..]);
  }

  lemma LiteralStands(s: string, i: nat, t: string)
    requires IsLiteralToken(t) && HasAt(s, i, t) && (i + |t| < |s| ==> s[i + |t|] != '\'')
    ensures StandsAt(s, i, t)
  {
    LiteralIsQuoted(t);
  }

  lemma IntroducedIsScanned(s: string, i: nat, name: string, literal: string)
    requires Legal(Introduced(name, literal)) && HasAt(s, i, "_" + name + literal) && StartsClean(s, i)
    requires var next := i + 1 + |name| + |literal|; next < |s| ==> s[next] != '\''
    ensures TokensFrom(s, i) == Prefixed([literal], TokensFrom(s, i + 1 + |name| + |literal|))
  {
    hide TokensFrom, ScanAt, IsLiteralToken, Prefixed, Apart, StartsClean, IsAlnum, HasAt;
    var start := i + 1 + |name|;
    IntroducedText(s, i, name, literal);
    IntroducerIsSkipped(s, i, name);
    TokensFromStep(s, i);
    LiteralStands(s, start, literal);
    ScanLiteral(s, start, literal);
    TokensFromStep(s, start);
  }

  /** Whatever may follow a form starts clean behind it. */
  lemma NextStartsClean(s: string, i: nat, f: Form)
    requires Legal(f) && HasAt(s, i, Spelled(f)) && Spelled(f) != ""
    requires i + |Spelled(f)| < |s| ==> MayFollow(f, s[i + |Spelled(f)|])
    ensures StartsClean(s, i + |Spelled(f)|)
  {
    hide IsToken;
    var whole := Spelled(f);
    assert s[i + |whole| - 1] == whole[|whole| - 1];
    if f.Introduced? {
      LiteralIsQuoted(f.literal);
      assert whole[|whole| - 1] == f.literal[|f.literal| - 1];
    }
  }

  lemma SpelledIsNotEmpty(f: Form)
    requires Legal(f)
    ensures Spelled(f) != ""
  {
    if f.Plain? {
      TokenEnds(TokenOf(f));
    }
  }

  // ----- Scanning a spelled text -----

  lemma HeadIsScanned(s: string, i: nat, ps: seq<Piece>, tail: string)
    requires i <= |s| && ps != [] && s[i..] == TextOf(ps, tail) && WellSpelled(ps, tail) && StartsClean(s, i)
    ensures var next := i + |ps[0].gap| + |Spelled(ps[0].form)|;
      && next <= |s| && s[next..] == TextOf(ps[1..], tail) && StartsClean(s, next)
      && TokensFrom(s, i) == Prefixed([TokenOf(ps[0].form)], TokensFrom(s, next))
  {
    hide TokensFrom, Prefixed, Legal, Spelled, MayFollow, TokenOf;
    var gap, f, rest := ps[0].gap, ps[0].form, TextOf(ps[1..], tail);
    var j := i + |gap|;
    var next := j + |Spelled(f)|;
    TextSplits(s, i, gap, Spelled(f), rest);
    GapIsSkipped(s, i, |gap|);
    SpelledIsNotEmpty(f);
    FormIsScanned(s, j, f) by {
      PlainIsWritten(f);
      AfterGap(s, i, gap);
    }
    NextStartsClean(s, j, f);
  }

  lemma PlainIsWritten(f: Form)
    requires Legal(f)
    ensures f.Plain? ==> f.written != ""
  {
    SpelledIsNotEmpty(f);
  }

  lemma TextSplits(s: string, i: nat, gap: string, form: string, rest: string)
    requires i <= |s| && s[i..] == gap + form + rest
    ensures var j := i + |gap|;
      && j + |form| <= |s| && s[i..j] == gap && HasAt(s, j, form) && s[j + |form|..] == rest
      && (forall k | i <= k < j :: s[k] in gap)
  {
    var j, whole := i + |gap|, s[i..];
    assert gap == whole[..|gap|] && form == whole[|gap|..|gap| + |form|] && rest == whole[|gap| + |form|..];
    forall k | i <= k < j
      ensures s[k] in gap
    {
      assert s[k] == gap[k - i];
    }
  }

  lemma AfterGap(s: string, i: nat, gap: string)
    requires StartsClean(s, i) && i + |gap| <= |s| && s[i..i + |gap|] == gap && Spaces(gap)
    ensures StartsClean(s, i + |gap|)
  {
    if gap != "" {
      var last := gap[|gap| - 1];
      assert last in gap && s[i + |gap| - 1] == last;
    }
  }

  lemma {:induction false} ScanSpelled(s: string, i: nat, ps: seq<Piece>, tail: string)
    requires i <= |s| && s[i..] == TextOf(ps, tail) && WellSpelled(ps, tail) && StartsClean(s, i)
    ensures TokensFrom(s, i) == Ok(TokensOf(ps))
    decreases |ps|
  {
    hide TokensFrom, StartsClean, TokenOf, Legal, MayFollow;
    if ps == [] {
      assert forall k | i <= k < |s| :: s[k] == s[i..][k - i] && s[k] in tail;
      GapIsSkipped(s, i, |s| - i);
      NothingLeft(s);
    } else {
      HeadIsScanned(s, i, ps, tail);
      ScanSpelled(s, i + |ps[0].gap| + |Spelled(ps[0].form)|, ps[1..], tail);
    }
  }

  // ----- Preparing a spelled text -----

  lemma TrimmedBetweenSpaces(gap: string, core: string, tail: string)
    requires Spaces(gap) && Spaces(tail) && core != "" && Tight(core) && core[|core| - 1] != ';'
    ensures Trimmed(gap + core + tail) == core
  {
    hide StripLeft, StripRight, Spaces, IsSpace, Tight, Strip;
    StripBetweenSpaces(gap, core, tail);
    assert DropTrailingSemicolons(core) == core;
    NothingToStrip(core);
  }

  lemma FormEnds(f: Form)
    requires Legal(f)
    ensures var w := Spelled(f);
      w != "" && !IsSpace(w[0]) && !IsSpace(w[|w| - 1]) && (w[|w| - 1] == ';' ==> TokenOf(f) == ";")
  {
    match f
    case Plain(w) =>
      TokenEnds(TokenOf(f));
      if IsWordToken(Lower(w)) {
        LoweredIsWordChar(w, 0);
        LoweredIsWordChar(w, |w| - 1);
      }
    case Backquoted(w) =>
    case Introduced(_, literal) =>
      LiteralIsQuoted(literal);
  }

  /** The same text without the white space around it. */
  function Bare(ps: seq<Piece>): seq<Piece>
    requires ps != []
  {
    [Piece("", ps[0].form)] + ps[1..]
  }

  lemma {:induction false} WithoutTail(ps: seq<Piece>, tail: string)
    requires WellSpelled(ps, tail)
    ensures WellSpelled(ps, "") && TextOf(ps, tail) == TextOf(ps, "") + tail && Spaces(tail)
  {
    hide Legal, MayFollow, Spelled;
    if ps != [] {
      WithoutTail(ps[1..], tail);
      var rest := TextOf(ps[1..], "");
      assert rest != "" ==> TextOf(ps[1..], tail)[0] == rest[0];
    }
  }

  lemma BareText(ps: seq<Piece>)
    requires ps != [] && WellSpelled(ps, "")
    ensures WellSpelled(Bare(ps), "") && TextOf(ps, "") == ps[0].gap + TextOf(Bare(ps), "")
    ensures TokensOf(Bare(ps)) == TokensOf(ps)
  {
    hide Legal, MayFollow, Spelled, TextOf, TokensOf, WellSpelled, TokenOf;
    assert Bare(ps)[1..] == ps[1..];
    var form, rest := Spelled(ps[0].form), TextOf(ps[1..], "");
    FirstPiece(ps, "");
    FirstPiece(Bare(ps), "");
    assert ps[0].gap + (form + rest) == ps[0].gap + form + rest && "" + form + rest == form + rest;
  }

  lemma NoText()
    ensures TextOf([], "") == ""
  {
  }

  lemma {:induction false} LastCharacter(ps: seq<Piece>)
    requires ps != [] && WellSpelled(ps, "")
    ensures var text, last := TextOf(ps, ""), Spelled(ps[|ps| - 1].form);
      text != "" && last != "" && text[|text| - 1] == last[|last| - 1]
  {
    hide Legal, MayFollow, Spelled, TextOf, TokensOf, WellSpelled, TokenOf;
    FirstPiece(ps, "");
    SpelledIsNotEmpty(ps[0].form);
    if |ps| == 1 {
      NoText();
    } else {
      LastCharacter(ps[1..]);
      assert ps[1..][|ps| - 2] == ps[|ps| - 1];
    }
  }

  lemma {:induction false} EveryFormIsLegal(ps: seq<Piece>, tail: string, k: nat)
    requires WellSpelled(ps, tail) && k < |ps|
    ensures Legal(ps[k].form)
  {
    hide Legal, MayFollow;
    if k > 0 {
      EveryFormIsLegal(ps[1..], tail, k - 1);
    }
  }

  lemma BareIsTight(ps: seq<Piece>)
    requires ps != [] && WellSpelled(ps, "") && ps[0].gap == "" && TokenOf(ps[|ps| - 1].form) != ";"
    ensures var text := TextOf(ps, ""); text != "" && Tight(text) && text[|text| - 1] != ';'
  {
    hide Legal, MayFollow, Spelled, TokenOf, IsSpace, TextOf, WellSpelled;
    FirstPiece(ps, "");
    EveryFormIsLegal(ps, "", |ps| - 1);
    FormEnds(ps[0].form);
    FormEnds(ps[|ps| - 1].form);
    LastCharacter(ps);
    assert TextOf(ps, "")[0] == Spelled(ps[0].form)[0];
  }

  lemma NoEscapedQuoteInside(gap: string, core: string, tail: string)
    requires !HasEscapedQuote(gap + core + tail)
    ensures !HasEscapedQuote(core)
  {
    var s := gap + core + tail;
    forall i | 0 <= i < |core| - 1
      ensures !EscapedQuoteAt(core, i)
    {
      assert !EscapedQuoteAt(s, |gap| + i);
    }
  }

  lemma {:induction false} OnlySpaces(s: string)
    requires Spaces(s)
    ensures Prepared(s) == ""
  {
    StripLeftSpaces(s, "");
    assert s + "" == s;
  }

  /** However a list of tokens is spelled, the tokeniser reads that list. */
  lemma TokeniseSpelled(ps: seq<Piece>, tail: string)
    requires WellSpelled(ps, tail) && !HasEscapedQuote(TextOf(ps, tail))
    requires ps != [] ==> TokenOf(ps[|ps| - 1].form) != ";"
    ensures Tokenise(TextOf(ps, tail)) == Ok(TokensOf(ps))
  {
    hide Legal, TokenOf, Trimmed, TokensFrom, HasEscapedQuote, UnescapeQuotes, WellSpelled, TextOf;
    if ps == [] {
      NoPieces(tail);
    } else {
      var core := TextOf(Bare(ps), "");
      WithoutTail(ps, tail);
      BareText(ps);
      BareIsTight(Bare(ps));
      FirstGapIsSpaces(ps, "");
      TrimmedBetweenSpaces(ps[0].gap, core, tail);
      NoEscapedQuoteInside(ps[0].gap, core, tail);
      NothingToUnescape(core);
      assert core[0..] == core;
      ScanSpelled(core, 0, Bare(ps), "");
    }
  }

  lemma FirstGapIsSpaces(ps: seq<Piece>, tail: string)
    requires ps != [] && WellSpelled(ps, tail)
    ensures Spaces(ps[0].gap)
  {
  }

  lemma NoPieces(tail: string)
    requires WellSpelled([], tail)
    ensures Tokenise(TextOf([], tail)) == Ok([])
  {
    hide Trimmed;
    OnlySpaces(tail);
    NothingLeft("");
  }

  // ----- Escaped quotes -----

  function JoinedBy(parts: seq<string>, between: string): string {
    if parts == [] then "" else if |parts| == 1 then parts[0] else parts[0] + between + JoinedBy(parts[1..], between)
  }

  lemma {:induction false} UnescapeAfter(part: string, rest: string)
    requires !HasEscapedQuote(part) && (rest != "" ==> rest[0] == '\\')
    ensures UnescapeQuotes(part + rest) == part + UnescapeQuotes(rest)
  {
    if part == "" {
      assert part + rest == rest;
    } else {
      var tail := part[1..];
      assert (part + rest)[1..] == tail + rest;
      assert !EscapedQuoteAt(part, 0);
      forall i | 0 <= i < |tail| - 1
        ensures !EscapedQuoteAt(tail, i)
      {
        assert !EscapedQuoteAt(part, i + 1);
      }
      UnescapeAfter(tail, rest);
      assert [part[0]] + (tail + UnescapeQuotes(rest)) == part + UnescapeQuotes(rest);
    }
  }

  lemma NothingInNoText()
    ensures UnescapeQuotes("") == ""
  {
  }

  /** The backslash goes in front of every quote, and nothing else changes. */
  lemma {:induction false} EscapedQuotesBecomeQuotes(parts: seq<string>)
    requires forall p | p in parts :: !HasEscapedQuote(p)
    ensures UnescapeQuotes(JoinedBy(parts, "\\'")) == JoinedBy(parts, "'")
  {
    hide HasEscapedQuote, UnescapeQuotes;
    if parts == [] {
      NothingInNoText();
    } else if |parts| == 1 {
      NothingToUnescape(parts[0]);
    } else {
      var others := JoinedBy(parts[1..], "\\'");
      EscapedQuotesBecomeQuotes(parts[1..]);
      assert parts[0] + "\\'" + others == parts[0] + ("\\'" + others);
      UnescapeAfter(parts[0], "\\'" + others);
      UnescapePair(others);
      assert parts[0] + ("'" + UnescapeQuotes(others)) == parts[0] + "'" + UnescapeQuotes(others);
    }
  }

  /** White space in front of a token always keeps it apart. */
  lemma WhiteSpaceKeepsApart(f: Form, c: char)
    requires Legal(f) && IsSpace(c)
    ensures MayFollow(f, c)
  {
    SpelledIsNotEmpty(f);
  }

  lemma {:induction false} AnyWhiteSpaceWillDo(ps: seq<Piece>, tail: string)
    requires Spaces(tail)
    requires forall k | 0 <= k < |ps| :: Legal(ps[k].form) && Spaces(ps[k].gap) && (k > 0 ==> ps[k].gap != "")
    ensures WellSpelled(ps, tail)
    decreases |ps|
  {
    hide Legal, MayFollow, Spelled;
    if ps != [] {
      AnyWhiteSpaceWillDo(ps[1..], tail);
      var rest := TextOf(ps[1..], tail);
      if rest != "" {
        if ps[1..] == [] {
          assert rest[0] in tail;
        } else {
          assert rest[0] == ps[1].gap[0];
        }
        WhiteSpaceKeepsApart(ps[0].form, rest[0]);
      }
    }
  }

  lemma PlainTokenIsRead(t: string)
    requires IsToken(t) && !HasEscapedQuote(t) && t != ";"
    ensures Tokenise(t) == Ok([t])
  {
    hide IsToken, HasEscapedQuote, Tokenise;
    assert Joined([t]) == t;
    TokeniseJoined([t]);
  }

  /** Each operator of two or three characters is one token. */
  lemma OperatorIsOneToken(op: string)
    requires op in ["<=>", "<>", "!=", ">=", "<=", "&&", "||"]
    ensures Tokenise(op) == Ok([op])
  {
    hide Tokenise;
    assert IsToken(op);
    assert !HasEscapedQuote(op);
    PlainTokenIsRead(op);
  }

  // ----- What a literal may hold -----

  /** A character of a literal, a doubled quote, or an escaped character. */
  datatype Unit = Single(c: char) | Doubled | Escaped(c: char)

  function UnitText(u: Unit): string {
    match u
    case Single(c) => [c]
    case Doubled => "''"
    case Escaped(c) => ['\\', c]
  }

  function Body(units: seq<Unit>): string {
    if units == [] then "" else UnitText(units[0]) + Body(units[1..])
  }

  predicate LegalUnits(units: seq<Unit>) {
    forall u | u in units :: u.Single? ==> u.c != '\'' && u.c != '\\'
  }

  lemma {:induction false} BodyCloses(units: seq<Unit>, t: string, j: nat)
    requires LegalUnits(units) && j <= |t| && t[j..] == Body(units) + "'"
    ensures LiteralEnd(t, j) == Some(|t|)
    decreases |units|
  {
    if units == [] {
      assert t[j..] == "'" && t[j] == '\'' && j + 1 == |t|;
    } else {
      var u, rest := units[0], Body(units[1..]) + "'";
      var unit := UnitText(u);
      assert t[j..] == unit + rest;
      assert t[j..][|unit|..] == t[j + |unit|..] && t[j..][|unit|..] == rest;
      assert t[j] == t[j..][0] && (|unit| == 2 ==> t[j + 1] == t[j..][1]);
      BodyCloses(units[1..], t, j + |unit|);
    }
  }

  lemma {:induction false} ClosedBody(t: string, j: nat) returns (units: seq<Unit>)
    requires j <= |t| && LiteralEnd(t, j) == Some(|t|)
    ensures LegalUnits(units) && t[j..] == Body(units) + "'"
    decreases |t| - j
  {
    if t[j] == '\'' && !(j + 1 < |t| && t[j + 1] == '\'') {
      units := [];
      assert t[j..] == "'";
    } else {
      var u := if t[j] == '\'' then Doubled
               else if t[j] == '\\' && j + 1 < |t| then Escaped(t[j + 1]) else Single(t[j]);
      if u.Single? {
        LastIsNoBackslash(t, j);
      }
      var n := |UnitText(u)|;
      var others := ClosedBody(t, j + n);
      units := [u] + others;
      assert t[j..] == UnitText(u) + t[j + n..];
      assert Body(units) == UnitText(u) + Body(others);
    }
  }

  lemma LastIsNoBackslash(t: string, j: nat)
    requires j < |t| && LiteralEnd(t, j) == Some(|t|)
    ensures t[j] == '\\' ==> j + 1 < |t|
  {
  }

  /** A literal is a quoted list of such units, and every such list is one literal. */
  lemma LiteralIffUnits(t: string)
    ensures IsLiteralToken(t) <==> exists units :: LegalUnits(units) && t == "'" + Body(units) + "'"
  {
    if IsLiteralToken(t) {
      var units := ClosedBody(t, 1);
      assert t == "'" + t[1..];
      assert t == "'" + Body(units) + "'";
    }
    if units :| LegalUnits(units) && t == "'" + Body(units) + "'" {
      assert t == "'" + (Body(units) + "'");
      assert t[1..] == Body(units) + "'";
      BodyCloses(units, t, 1);
    }
  }

  /** However two clauses are spelled, they canonicalise alike exactly when they are one up to grouping. */
  lemma SpelledTextsAgreeIffSameUpToGrouping(a: CheckClause.Expr, b: CheckClause.Expr, ps: seq<Piece>,
      qs: seq<Piece>, tail: string, tail': string)
    requires CheckClause.WellFormed(a) && CheckClause.WellFormed(b)
    requires TokensOf(ps) == CheckClause.Print(a) && TokensOf(qs) == CheckClause.Print(b)
    requires WellSpelled(ps, tail) && !HasEscapedQuote(TextOf(ps, tail))
    requires WellSpelled(qs, tail') && !HasEscapedQuote(TextOf(qs, tail'))
    requires ps != [] && TokenOf(ps[|ps| - 1].form) != ";"
    requires qs != [] && TokenOf(qs[|qs| - 1].form) != ";"
    ensures CheckClause.Canonicalise(TextOf(ps, tail)) == Ok(CheckClause.Norm(a))
    ensures CheckClause.Canonicalise(TextOf(ps, tail)) == CheckClause.Canonicalise(TextOf(qs, tail')) <==>
      CheckClause.SameUpToGrouping(a, b)
  {
    hide CheckClause.Parse, CheckClause.Norm, CheckClause.Print, CheckClause.WellFormed, CheckClause.SameUpToGrouping;
    hide TokensOf, TextOf, WellSpelled, HasEscapedQuote, Tokenise, TokenOf;
    TokeniseSpelled(ps, tail);
    TokeniseSpelled(qs, tail');
    CheckClause.ParsePrinted(a);
    CheckClause.ParsePrinted(b);
    CheckClause.SameNodeIffSameUpToGrouping(a, b);
  }
}
