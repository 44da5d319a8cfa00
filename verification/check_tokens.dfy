/**
 The tokeniser that feeds the CHECK-clause canonicaliser, over ASCII text.
 The source is scanned left to right; white space, backquotes and character-set
 introducers in front of a string literal produce no token.
 */
module CheckTokens {
  import opened Results
  import opened Text

  const OPERATORS: seq<string> := ["<=>", "<>", "!=", ">=", "<=", "&&", "||"]

  predicate IsLetter(c: char) {
    'a' <= c <= 'z' || 'A' <= c <= 'Z'
  }

  predicate IsAlnum(c: char) {
    IsLetter(c) || IsDigit(c)
  }

  predicate IsWordChar(c: char) {
    IsAlnum(c) || c == '_' || c == '$'
  }

  predicate IsNumberChar(c: char) {
    IsDigit(c) || c == '.'
  }

  function LowerChar(c: char): char {
    if 'A' <= c <= 'Z' then (c as int + 32) as char else c
  }

  function Lower(s: string): (t: string)
    ensures |t| == |s|
  {
    seq(|s|, i requires 0 <= i < |s| => LowerChar(s[i]))
  }

  // ----- Preparing the text -----

  function DropTrailingSemicolons(s: string): string {
    if s != "" && s[|s| - 1] == ';' then DropTrailingSemicolons(s[..|s| - 1]) else s
  }

  /** str.replace("\\'", "'") */
  function UnescapeQuotes(s: string): string {
    if |s| >= 2 && s[0] == '\\' && s[1] == '\'' then "'" + UnescapeQuotes(s[2..])
    else if s == "" then ""
    else [s[0]] + UnescapeQuotes(s[1..])
  }

  /** The text without surrounding white space and trailing semicolons. */
  function Trimmed(text: string): string {
    Strip(DropTrailingSemicolons(Strip(text)))
  }

  function Prepared(text: string): string {
    UnescapeQuotes(Trimmed(text))
  }

  // ----- Scanning -----

  /** First position from i on whose character is outside the class. */
  function WordEnd(s: string, i: nat): (j: nat)
    requires i <= |s|
    ensures i <= j <= |s| && (forall k | i <= k < j :: IsWordChar(s[k])) && (j < |s| ==> !IsWordChar(s[j]))
    decreases |s| - i
  {
    if i < |s| && IsWordChar(s[i]) then WordEnd(s, i + 1) else i
  }

  function AlnumEnd(s: string, i: nat): (j: nat)
    requires i <= |s|
    ensures i <= j <= |s| && (forall k | i <= k < j :: IsAlnum(s[k])) && (j < |s| ==> !IsAlnum(s[j]))
    decreases |s| - i
  {
    if i < |s| && IsAlnum(s[i]) then AlnumEnd(s, i + 1) else i
  }

  function NumberEnd(s: string, i: nat): (j: nat)
    requires i <= |s|
    ensures i <= j <= |s| && (forall k | i <= k < j :: IsNumberChar(s[k])) && (j < |s| ==> !IsNumberChar(s[j]))
    decreases |s| - i
  {
    if i < |s| && IsNumberChar(s[i]) then NumberEnd(s, i + 1) else i
  }

  /** Position just after the closing quote of a literal whose inside starts at i. */
  function LiteralEnd(s: string, i: nat): (r: Option<nat>)
    requires i <= |s|
    ensures r.Some? ==> i < r.value <= |s|
    decreases |s| - i
  {
    if i == |s| then None
    else if s[i] == '\'' then
      if i + 1 < |s| && s[i + 1] == '\'' then LiteralEnd(s, i + 2) else Some(i + 1)
    else if s[i] == '\\' && i + 1 < |s| then LiteralEnd(s, i + 2)
    else LiteralEnd(s, i + 1)
  }

  predicate HasAt(s: string, i: nat, t: string) {
    i + |t| <= |s| && s[i..i + |t|] == t
  }

  /** The first listed operator that starts at i. */
  function OperatorAt(s: string, i: nat, k: nat): (r: Option<string>)
    requires k <= |OPERATORS|
    ensures r.Some? ==> r.value in OPERATORS && HasAt(s, i, r.value)
    decreases |OPERATORS| - k
  {
    if k == |OPERATORS| then None
    else if HasAt(s, i, OPERATORS[k]) then Some(OPERATORS[k])
    else OperatorAt(s, i, k + 1)
  }

  /** An introducer such as _utf8mb4 directly in front of a literal; its end is where the literal starts. */
  function IntroducerEnd(s: string, i: nat): (r: Option<nat>)
    requires i < |s|
    ensures r.Some? ==> i < r.value < |s|
  {
    var end := AlnumEnd(s, i + 1);
    if s[i] == '_' && (i == 0 || !IsWordChar(s[i - 1])) && end > i + 1 && end < |s| && s[end] == '\''
    then Some(end) else None
  }

  datatype Scan = Skip(next: nat) | Emit(token: string, next: nat) | Unterminated

  /** What the scanner does at position i. */
  function ScanAt(s: string, i: nat): (r: Scan)
    requires i < |s|
    ensures !r.Unterminated? ==> i < r.next <= |s|
  {
    if IsSpace(s[i]) || s[i] == '`' then Skip(i + 1)
    else if IntroducerEnd(s, i).Some? then Skip(IntroducerEnd(s, i).value)
    else if s[i] == '\'' then
      match LiteralEnd(s, i + 1)
      case None => Unterminated
      case Some(end) => Emit(s[i..end], end)
    else if IsLetter(s[i]) || s[i] == '_' || s[i] == '$' then
      Emit(Lower(s[i..WordEnd(s, i + 1)]), WordEnd(s, i + 1))
    else if IsDigit(s[i]) then Emit(s[i..NumberEnd(s, i + 1)], NumberEnd(s, i + 1))
    else
      match OperatorAt(s, i, 0)
      case Some(op) => Emit(op, i + |op|)
      case None => Emit([LowerChar(s[i])], i + 1)
  }

  function TokensFrom(s: string, i: nat): Result<seq<string>, string>
    requires i <= |s|
    decreases |s| - i
  {
    if i == |s| then Ok([])
    else
      match ScanAt(s, i)
      case Unterminated => Err("Unterminated string in CHECK clause")
      case Skip(next) => TokensFrom(s, next)
      case Emit(token, next) =>
        var rest :- TokensFrom(s, next);
        Ok([token] + rest)
  }

  function Tokenise(text: string): Result<seq<string>, string> {
    TokensFrom(Prepared(text), 0)
  }

  // ----- The scanning loop -----

  method LiteralEndLoop(s: string, start: nat) returns (r: Option<nat>)
    requires start <= |s|
    ensures r == LiteralEnd(s, start)
  {
    var i := start;
    while i < |s|
      invariant start <= i <= |s|
      invariant LiteralEnd(s, start) == LiteralEnd(s, i)
    {
      if s[i] == '\'' {
        if i + 1 < |s| && s[i + 1] == '\'' {
          i := i + 1;
        } else {
          return Some(i + 1);
        }
      } else if s[i] == '\\' && i + 1 < |s| {
        i := i + 1;
      }
      i := i + 1;
    }
    return None;
  }

  method WordEndLoop(s: string, start: nat) returns (end: nat)
    requires start <= |s|
    ensures end == WordEnd(s, start)
  {
    end := start;
    while end < |s| && IsWordChar(s[end])
      invariant start <= end <= |s|
      invariant WordEnd(s, start) == WordEnd(s, end)
    {
      end := end + 1;
    }
  }

  method NumberEndLoop(s: string, start: nat) returns (end: nat)
    requires start <= |s|
    ensures end == NumberEnd(s, start)
  {
    end := start;
    while end < |s| && IsNumberChar(s[end])
      invariant start <= end <= |s|
      invariant NumberEnd(s, start) == NumberEnd(s, end)
    {
      end := end + 1;
    }
  }

  /** One pass through the body of the scanning loop. */
  method ScanOnce(source: string, index: nat) returns (scan: Scan)
    requires index < |source|
    ensures scan == ScanAt(source, index)
  {
    var c := source[index];
    if IsSpace(c) || c == '`' {
      return Skip(index + 1);
    }
    var introducer := IntroducerEnd(source, index);
    if introducer.Some? {
      return Skip(introducer.value);
    }
    if c == '\'' {
      var end := LiteralEndLoop(source, index + 1);
      if end.None? {
        return Unterminated;
      }
      return Emit(source[index..end.value], end.value);
    }
    if IsLetter(c) || c == '_' || c == '$' {
      var end := WordEndLoop(source, index + 1);
      return Emit(Lower(source[index..end]), end);
    }
    if IsDigit(c) {
      var end := NumberEndLoop(source, index + 1);
      return Emit(source[index..end], end);
    }
    var operator := OperatorAt(source, index, 0);
    if operator.Some? {
      return Emit(operator.value, index + |operator.value|);
    }
    return Emit([LowerChar(c)], index + 1);
  }

  method TokeniseCheckClause(text: string) returns (r: Result<seq<string>, string>)
    ensures r == Tokenise(text)
  {
    hide Prefixed, TokensFrom, ScanAt, Prepared;
    var source := Prepared(text);
    var tokens: seq<string> := [];
    var index := 0;
    PrefixedByNothing(Tokenise(text));
    while index < |source|
      invariant index <= |source|
      invariant Tokenise(text) == Prefixed(tokens, TokensFrom(source, index))
      decreases |source| - index
    {
      PrefixedAssociates(tokens, source, index);
      var scan := ScanOnce(source, index);
      match scan {
        case Unterminated => return Err("Unterminated string in CHECK clause");
        case Skip(next) => index := next;
        case Emit(token, next) => tokens, index := tokens + [token], next;
      }
    }
    NothingFollows(tokens, source);
    return Ok(tokens);
  }

  function Prefixed(tokens: seq<string>, r: Result<seq<string>, string>): Result<seq<string>, string> {
    match r
    case Ok(rest) => Ok(tokens + rest)
    case Err(e) => Err(e)
  }

  lemma PrefixedByNothing(r: Result<seq<string>, string>)
    ensures Prefixed([], r) == r
  {
    assert r.Ok? ==> [] + r.value == r.value;
  }

  lemma NothingFollows(tokens: seq<string>, s: string)
    ensures Prefixed(tokens, TokensFrom(s, |s|)) == Ok(tokens)
  {
    assert tokens + [] == tokens;
  }

  lemma PrefixedAssociates(tokens: seq<string>, s: string, i: nat)
    requires i < |s|
    ensures var scan := ScanAt(s, i);
            && (scan.Emit? ==>
                  Prefixed(tokens, TokensFrom(s, i)) == Prefixed(tokens + [scan.token], TokensFrom(s, scan.next)))
            && (scan.Skip? ==> TokensFrom(s, i) == TokensFrom(s, scan.next))
            && (scan.Unterminated? ==>
                  Prefixed(tokens, TokensFrom(s, i)) == Err("Unterminated string in CHECK clause"))
  {
    hide ScanAt;
    var scan := ScanAt(s, i);
    if scan.Emit? && TokensFrom(s, scan.next).Ok? {
      var rest := TokensFrom(s, scan.next).value;
      assert tokens + ([scan.token] + rest) == tokens + [scan.token] + rest;
    }
  }

  // ----- The shapes of tokens -----

  predicate IsWordToken(t: string) {
    t != "" && !IsDigit(t[0]) && forall i | 0 <= i < |t| :: IsWordChar(t[i]) && LowerChar(t[i]) == t[i]
  }

  predicate IsNumberToken(t: string) {
    t != "" && IsDigit(t[0]) && forall i | 0 <= i < |t| :: IsNumberChar(t[i])
  }

  predicate IsLiteralToken(t: string) {
    t != "" && t[0] == '\'' && LiteralEnd(t, 1) == Some(|t|)
  }

  predicate IsSymbolToken(t: string) {
    |t| == 1 && !IsSpace(t[0]) && t[0] != '`' && t[0] != '\'' && !IsWordChar(t[0])
  }

  predicate IsToken(t: string) {
    IsWordToken(t) || IsNumberToken(t) || IsLiteralToken(t) || t in OPERATORS || IsSymbolToken(t)
  }

  lemma {:induction false} LiteralEndInSlice(s: string, a: nat, i: nat, end: nat)
    requires a <= i <= |s| && LiteralEnd(s, i) == Some(end)
    ensures LiteralEnd(s[a..end], i - a) == Some(end - a)
    decreases |s| - i
  {
    var t := s[a..end];
    assert i < end && t[i - a] == s[i];
    assert i + 1 < end ==> t[i + 1 - a] == s[i + 1];
    if s[i] == '\'' {
      if i + 1 < |s| && s[i + 1] == '\'' {
        LiteralEndInSlice(s, a, i + 2, end);
        assert LiteralEnd(t, i - a) == LiteralEnd(t, i + 2 - a);
      } else {
        assert end == i + 1;
        assert LiteralEnd(t, i - a) == Some(end - a);
      }
    } else if s[i] == '\\' && i + 1 < |s| {
      LiteralEndInSlice(s, a, i + 2, end);
    } else {
      LiteralEndInSlice(s, a, i + 1, end);
    }
  }

  lemma EmittedIsToken(s: string, i: nat)
    requires i < |s| && ScanAt(s, i).Emit?
    ensures IsToken(ScanAt(s, i).token)
  {
    hide IsWordToken, IsNumberToken, IsLiteralToken, IsSymbolToken, LiteralEnd, WordEnd, NumberEnd, OperatorAt;
    hide IntroducerEnd;
    var token := ScanAt(s, i).token;
    if s[i] == '\'' {
      LiteralIsToken(s, i);
    } else if IsLetter(s[i]) || s[i] == '_' || s[i] == '$' {
      WordIsToken(s, i);
    } else if IsDigit(s[i]) {
      NumberIsToken(s, i);
    } else if OperatorAt(s, i, 0).Some? {
      assert token in OPERATORS;
    } else {
      SymbolIsToken(s[i]);
    }
  }

  lemma LiteralIsToken(s: string, i: nat)
    requires i < |s| && s[i] == '\'' && LiteralEnd(s, i + 1).Some?
    ensures IsLiteralToken(s[i..LiteralEnd(s, i + 1).value])
  {
    LiteralEndInSlice(s, i, i + 1, LiteralEnd(s, i + 1).value);
  }

  lemma WordIsToken(s: string, i: nat)
    requires i < |s| && (IsLetter(s[i]) || s[i] == '_' || s[i] == '$')
    ensures IsWordToken(Lower(s[i..WordEnd(s, i + 1)]))
  {
    hide IsLetter, IsDigit, LowerChar, WordEnd;
    var word := s[i..WordEnd(s, i + 1)];
    LoweredWordChar(s[i]);
    assert word[0] == s[i];
    forall k | 0 <= k < |word|
      ensures IsWordChar(Lower(word)[k]) && LowerChar(Lower(word)[k]) == Lower(word)[k]
    {
      assert word[k] == s[i + k] && IsWordChar(s[i + k]);
      LoweredWordChar(s[i + k]);
    }
  }

  lemma LoweredWordChar(c: char)
    requires IsWordChar(c)
    ensures IsWordChar(LowerChar(c)) && LowerChar(LowerChar(c)) == LowerChar(c)
    ensures IsLetter(c) || c == '_' || c == '$' ==> !IsDigit(LowerChar(c))
  {
  }

  lemma NumberIsToken(s: string, i: nat)
    requires i < |s| && IsDigit(s[i])
    ensures IsNumberToken(s[i..NumberEnd(s, i + 1)])
  {
  }

  lemma SymbolIsToken(c: char)
    requires !IsSpace(c) && c != '`' && c != '\'' && !IsLetter(c) && c != '_' && c != '$' && !IsDigit(c)
    ensures IsSymbolToken([LowerChar(c)])
  {
  }

  lemma {:induction false} ScannedTokensAreTokens(s: string, i: nat)
    requires i <= |s| && TokensFrom(s, i).Ok?
    ensures forall t | t in TokensFrom(s, i).value :: IsToken(t)
    decreases |s| - i
  {
    if i < |s| {
      var scan := ScanAt(s, i);
      if scan.Emit? {
        EmittedIsToken(s, i);
      }
      ScannedTokensAreTokens(s, scan.next);
    }
  }

  // ----- Printing tokens and scanning them again -----

  /** Tokens with one space between them. */
  function Joined(tokens: seq<string>): string {
    if tokens == [] then ""
    else if |tokens| == 1 then tokens[0]
    else tokens[0] + " " + Joined(tokens[1..])
  }

  predicate EscapedQuoteAt(s: string, i: int) {
    0 <= i < |s| - 1 && s[i] == '\\' && s[i + 1] == '\''
  }

  predicate HasEscapedQuote(s: string) {
    exists i :: 0 <= i < |s| - 1 && EscapedQuoteAt(s, i)
  }

  predicate IsOperatorChar(c: char) {
    c == '<' || c == '>' || c == '=' || c == '!' || c == '&' || c == '|'
  }

  /** A text that starts with this character does not run together with the token in front of it. */
  predicate Apart(t: string, c: char)
    requires t != ""
  {
    var last := t[|t| - 1];
    && !(IsWordChar(last) && IsWordChar(c))
    && !(IsDigit(t[0]) && IsNumberChar(c))
    && !(IsOperatorChar(last) && IsOperatorChar(c))
    && (c == '\'' ==> last != '\'' && last != '\\' && t[0] != '_')
  }

  /** A token at i, with nothing behind it that runs together with it. */
  predicate StandsAt(s: string, i: nat, t: string) {
    HasAt(s, i, t) && t != "" && (i + |t| == |s| || Apart(t, s[i + |t|]))
  }

  lemma {:induction false} LiteralEndInText(s: string, i: nat, t: string, j: nat)
    requires StandsAt(s, i, t) && j <= |t| && LiteralEnd(t, j) == Some(|t|)
    ensures LiteralEnd(s, i + j) == Some(i + |t|)
    decreases |t| - j
  {
    assert s[i + j] == t[j];
    if t[j] == '\'' {
      if j + 1 < |t| && t[j + 1] == '\'' {
        assert s[i + j + 1] == t[j + 1];
        LiteralEndInText(s, i, t, j + 2);
      }
    } else if t[j] == '\\' && j + 1 < |t| {
      LiteralEndInText(s, i, t, j + 2);
    } else {
      LiteralEndInText(s, i, t, j + 1);
    }
  }

  /** A word, in any letter case. */
  lemma ScanWord(s: string, i: nat, w: string)
    requires IsWordToken(Lower(w)) && StandsAt(s, i, w)
    ensures i < |s| && ScanAt(s, i) == Emit(Lower(w), i + |w|)
  {
    hide IsLetter, LowerChar;
    forall k | i <= k < i + |w|
      ensures s[k] == w[k - i] && IsWordChar(s[k])
    {
      assert s[i..i + |w|][k - i] == s[k];
      LoweredIsWordChar(w, k - i);
    }
    LoweredIsWordChar(w, 0);
    WordChars(s[i]);
    assert WordEnd(s, i + 1) == i + |w|;
    assert s[i..i + |w|] == w;
    WordIntroducesNothing(s, i, w);
  }

  lemma LoweredIsWordChar(w: string, k: nat)
    requires IsWordToken(Lower(w)) && k < |w|
    ensures IsWordChar(w[k]) && (k == 0 ==> !IsDigit(w[0]))
  {
    assert Lower(w)[k] == LowerChar(w[k]);
    assert IsWordChar(Lower(w)[k]);
  }

  lemma WordChars(c: char)
    requires IsWordChar(c) && !IsDigit(c)
    ensures IsLetter(c) || c == '_' || c == '$'
    ensures !IsSpace(c) && c != '`' && c != '\''
  {
  }

  lemma WordIntroducesNothing(s: string, i: nat, w: string)
    requires StandsAt(s, i, w) && forall k | i <= k < i + |w| :: s[k] == w[k - i] && IsWordChar(s[k])
    ensures IntroducerEnd(s, i).None?
  {
    var end := AlnumEnd(s, i + 1);
    assert end < i + |w| ==> IsWordChar(s[end]);
  }

  lemma ScanNumber(s: string, i: nat, t: string)
    requires IsNumberToken(t) && StandsAt(s, i, t)
    ensures i < |s| && ScanAt(s, i) == Emit(t, i + |t|)
  {
    var end := NumberEnd(s, i + 1);
    assert forall k | i <= k < i + |t| :: s[k] == t[k - i];
  }

  /** An operator found where a token stands that may start one is a prefix of that token. */
  lemma OperatorStaysInToken(s: string, i: nat, t: string, op: string)
    requires StandsAt(s, i, t) && HasAt(s, i, op) && op in OPERATORS
    ensures op <= t
  {
    assert forall k | i <= k < i + |op| :: s[k] == op[k - i] && IsOperatorChar(op[k - i]);
    assert forall k | i <= k < i + |t| :: s[k] == t[k - i];
    if |op| > |t| {
      assert false;
    }
    assert op == s[i..i + |op|] && t[..|op|] == s[i..i + |op|];
  }

  lemma {:induction false} ScanOperatorFrom(s: string, i: nat, t: string, k: nat)
    requires StandsAt(s, i, t) && k <= |OPERATORS| && t in OPERATORS[k..]
    ensures OperatorAt(s, i, k) == Some(t)
    decreases |OPERATORS| - k
  {
    if OPERATORS[k] != t {
      assert !(OPERATORS[k] <= t) by {
        var n :| k < n < |OPERATORS| && OPERATORS[n] == t;
        assert OPERATORS[0] == "<=>" && OPERATORS[4] == "<=";
      }
      if HasAt(s, i, OPERATORS[k]) {
        OperatorStaysInToken(s, i, t, OPERATORS[k]);
      }
      ScanOperatorFrom(s, i, t, k + 1);
    }
  }

  lemma ScanSymbol(s: string, i: nat, t: string)
    requires IsSymbolToken(t) && StandsAt(s, i, t)
    ensures i < |s| && ScanAt(s, i) == Emit(t, i + |t|)
  {
    assert s[i] == t[0];
    var op := OperatorAt(s, i, 0);
    if op.Some? {
      OperatorStaysInToken(s, i, t, op.value);
    }
  }

  lemma ScanLiteral(s: string, i: nat, t: string)
    requires IsLiteralToken(t) && StandsAt(s, i, t)
    ensures i < |s| && ScanAt(s, i) == Emit(t, i + |t|)
  {
    hide LiteralEnd, IntroducerEnd, OperatorAt;
    assert s[i] == t[0];
    LiteralEndInText(s, i, t, 1);
    QuoteIntroducesNothing(s, i);
  }

  lemma QuoteIntroducesNothing(s: string, i: nat)
    requires i < |s| && s[i] == '\''
    ensures IntroducerEnd(s, i).None?
  {
  }

  lemma ScanOperator(s: string, i: nat, t: string)
    requires t in OPERATORS && StandsAt(s, i, t)
    ensures i < |s| && ScanAt(s, i) == Emit(t, i + |t|)
  {
    assert t != "" && s[i] == t[0];
    assert OPERATORS[0..] == OPERATORS;
    ScanOperatorFrom(s, i, t, 0);
  }

  lemma LowerOfWord(t: string)
    requires IsWordToken(t)
    ensures Lower(t) == t
  {
  }

  lemma ScanToken(s: string, i: nat, t: string)
    requires IsToken(t) && StandsAt(s, i, t)
    ensures i < |s| && ScanAt(s, i) == Emit(t, i + |t|)
  {
    hide IsWordToken, IsNumberToken, IsLiteralToken, IsSymbolToken, ScanAt;
    if IsWordToken(t) {
      LowerOfWord(t);
      ScanWord(s, i, t);
    } else if IsNumberToken(t) {
      ScanNumber(s, i, t);
    } else if IsLiteralToken(t) {
      ScanLiteral(s, i, t);
    } else if t in OPERATORS {
      ScanOperator(s, i, t);
    } else {
      ScanSymbol(s, i, t);
    }
  }

  lemma HeadStandsAt(s: string, i: nat, tokens: seq<string>)
    requires i <= |s| && s[i..] == Joined(tokens) && tokens != [] && tokens[0] != ""
    ensures StandsAt(s, i, tokens[0])
    ensures |tokens| == 1 ==> i + |tokens[0]| == |s|
    ensures |tokens| > 1 ==>
              var next := i + |tokens[0]|;
              next < |s| && s[next] == ' ' && s[next + 1..] == Joined(tokens[1..])
  {
    var t, rest := tokens[0], s[i..];
    assert rest[..|t|] == t;
    assert s[i..i + |t|] == rest[..|t|];
    if |tokens| > 1 {
      assert s[i + |t|] == rest[|t|] == ' ';
      assert s[i + |t| + 1..] == rest[|t| + 1..];
    }
  }

  lemma ScanSpace(s: string, i: nat)
    requires i < |s| && s[i] == ' '
    ensures ScanAt(s, i) == Skip(i + 1)
  {
  }

  lemma NothingLeft(s: string)
    ensures TokensFrom(s, |s|) == Ok([])
  {
  }

  lemma TokensFromStep(s: string, i: nat)
    requires i < |s|
    ensures var scan := ScanAt(s, i);
            && (scan.Emit? ==> TokensFrom(s, i) == Prefixed([scan.token], TokensFrom(s, scan.next)))
            && (scan.Skip? ==> TokensFrom(s, i) == TokensFrom(s, scan.next))
  {
  }

  lemma HeadScanned(s: string, i: nat, tokens: seq<string>)
    requires i <= |s| && s[i..] == Joined(tokens)
    requires tokens != [] && IsToken(tokens[0])
    ensures |tokens| == 1 ==> TokensFrom(s, i) == Ok([tokens[0]])
    ensures |tokens| > 1 ==>
              var next := i + |tokens[0]| + 1;
              && next <= |s| && s[next - 1] == ' ' && s[next..] == Joined(tokens[1..])
              && TokensFrom(s, i) == Prefixed([tokens[0]], TokensFrom(s, next))
  {
    hide ScanAt, StandsAt, IsToken, TokensFrom, HasAt, Joined;
    var next := i + |tokens[0]|;
    TokenEnds(tokens[0]);
    HeadStandsAt(s, i, tokens);
    ScanToken(s, i, tokens[0]);
    TokensFromStep(s, i);
    if |tokens| > 1 {
      ScanSpace(s, next);
      TokensFromStep(s, next);
    } else {
      NothingLeft(s);
      assert [tokens[0]] + [] == [tokens[0]];
    }
  }

  lemma {:induction false} ScanJoined(s: string, i: nat, tokens: seq<string>)
    requires i <= |s| && s[i..] == Joined(tokens)
    requires forall t | t in tokens :: IsToken(t)
    ensures TokensFrom(s, i) == Ok(tokens)
    decreases |tokens|
  {
    hide IsToken, TokensFrom, Joined;
    if tokens == [] {
      ScanNothing(s, i);
    } else {
      HeadScanned(s, i, tokens);
      if |tokens| > 1 {
        ScanJoined(s, i + |tokens[0]| + 1, tokens[1..]);
        assert [tokens[0]] + tokens[1..] == tokens;
      } else {
        assert [tokens[0]] == tokens;
      }
    }
  }

  lemma ScanNothing(s: string, i: nat)
    requires i <= |s| && s[i..] == Joined([])
    ensures TokensFrom(s, i) == Ok([])
  {
  }

  // ----- Printed tokens survive the preparation of the text -----

  lemma TokenEnds(t: string)
    requires IsToken(t)
    ensures t != "" && !IsSpace(t[0]) && !IsSpace(t[|t| - 1])
    ensures t[|t| - 1] == ';' <==> t == ";"
  {
    if IsLiteralToken(t) {
      LiteralClosesWithQuote(t, 1);
    }
  }

  lemma {:induction false} LiteralClosesWithQuote(t: string, j: nat)
    requires j <= |t| && LiteralEnd(t, j) == Some(|t|)
    ensures |t| > 0 && t[|t| - 1] == '\''
    decreases |t| - j
  {
    if t[j] == '\'' {
      if j + 1 < |t| && t[j + 1] == '\'' {
        LiteralClosesWithQuote(t, j + 2);
      }
    } else if t[j] == '\\' && j + 1 < |t| {
      LiteralClosesWithQuote(t, j + 2);
    } else {
      LiteralClosesWithQuote(t, j + 1);
    }
  }

  lemma {:induction false} JoinedEnds(tokens: seq<string>)
    requires tokens != [] && forall t | t in tokens :: IsToken(t)
    ensures var s, last := Joined(tokens), tokens[|tokens| - 1];
            && |last| <= |s| && last != "" && tokens[0] != ""
            && s[0] == tokens[0][0] && s[|s| - 1] == last[|last| - 1]
            && !IsSpace(s[0]) && !IsSpace(s[|s| - 1])
            && (s[|s| - 1] == ';' <==> last == ";")
  {
    TokenEnds(tokens[0]);
    hide IsToken, IsSpace;
    if |tokens| == 1 {
      assert Joined(tokens) == tokens[0];
    } else {
      JoinedEnds(tokens[1..]);
      assert Joined(tokens) == tokens[0] + " " + Joined(tokens[1..]);
    }
  }

  lemma {:induction false} JoinedHasNoEscapedQuote(tokens: seq<string>)
    requires forall t | t in tokens :: !HasEscapedQuote(t)
    ensures !HasEscapedQuote(Joined(tokens))
  {
    if |tokens| > 1 {
      var t, rest := tokens[0], Joined(tokens[1..]);
      JoinedHasNoEscapedQuote(tokens[1..]);
      assert !HasEscapedQuote(t);
      var s := t + " " + rest;
      forall i | 0 <= i < |s| - 1
        ensures !EscapedQuoteAt(s, i)
      {
        if i + 1 < |t| {
          assert !EscapedQuoteAt(t, i);
        } else if i + 1 == |t| {
          assert s[i + 1] == ' ';
        } else if i > |t| {
          assert !EscapedQuoteAt(rest, i - |t| - 1);
        }
      }
    }
  }

  lemma {:induction false} NothingToUnescape(s: string)
    requires !HasEscapedQuote(s)
    ensures UnescapeQuotes(s) == s
  {
    if s != "" {
      forall i | 0 <= i < |s[1..]| - 1
        ensures !EscapedQuoteAt(s[1..], i)
      {
        assert !EscapedQuoteAt(s, i + 1);
      }
      assert !EscapedQuoteAt(s, 0);
      NothingToUnescape(s[1..]);
    }
  }

  lemma NothingToStrip(s: string)
    requires Tight(s)
    ensures Strip(s) == s
  {
  }

  lemma {:induction false} JoinedWithLast(tokens: seq<string>, last: string)
    ensures Joined(tokens + [last]) == if tokens == [] then last else Joined(tokens) + " " + last
  {
    if tokens != [] {
      JoinedWithLast(tokens[1..], last);
      assert (tokens + [last])[1..] == tokens[1..] + [last];
      if |tokens| > 1 {
        var rest := Joined(tokens[1..]);
        assert tokens[0] + " " + (rest + " " + last) == (tokens[0] + " " + rest) + " " + last;
      }
    }
  }

  function WithoutFinalSemicolon(tokens: seq<string>): seq<string> {
    if tokens != [] && tokens[|tokens| - 1] == ";" then tokens[..|tokens| - 1] else tokens
  }

  lemma StripOneSpace(s: string)
    requires Tight(s)
    ensures Strip(s + " ") == s
  {
    if s != "" {
      assert (s + " ")[0] == s[0];
      assert (s + " ")[..|s|] == s;
      NothingToStrip(s);
    }
  }

  lemma TrimmedPlain(s: string)
    requires Tight(s) && (s != "" ==> s[|s| - 1] != ';')
    ensures Trimmed(s) == s
  {
    hide Strip;
    NothingToStrip(s);
  }

  /** A final semicolon token is dropped with the space before it. */
  lemma TrimmedWithSemicolon(s: string)
    requires Tight(s) && s != ""
    ensures Trimmed(s + " ;") == s
  {
    hide Strip;
    NothingToStrip(s + " ;");
    assert (s + " ;")[..|s| + 1] == s + " ";
    assert DropTrailingSemicolons(s + " ;") == s + " ";
    StripOneSpace(s);
  }

  lemma TrimmedSemicolon()
    ensures Trimmed(";") == ""
  {
    NothingToStrip(";");
    assert DropTrailingSemicolons(";") == "";
    NothingToStrip("");
  }

  /** Trimming printed tokens drops one final semicolon token and nothing else. */
  lemma TrimmedJoined(tokens: seq<string>)
    requires forall t | t in tokens :: IsToken(t)
    ensures Trimmed(Joined(tokens)) == Joined(WithoutFinalSemicolon(tokens))
  {
    hide IsToken, Trimmed, IsSpace;
    var kept := WithoutFinalSemicolon(tokens);
    if kept == tokens {
      if tokens != [] {
        JoinedEnds(tokens);
      }
      TrimmedPlain(Joined(tokens));
    } else {
      assert kept + [";"] == tokens;
      JoinedWithLast(kept, ";");
      if kept == [] {
        TrimmedSemicolon();
      } else {
        JoinedEnds(kept);
        assert Joined(kept) + " " + ";" == Joined(kept) + " ;";
        TrimmedWithSemicolon(Joined(kept));
      }
    }
  }

  /** Printed tokens are read back exactly, apart from one final semicolon token. */
  lemma TokeniseJoined(tokens: seq<string>)
    requires forall t | t in tokens :: IsToken(t) && !HasEscapedQuote(t)
    ensures Tokenise(Joined(tokens)) == Ok(WithoutFinalSemicolon(tokens))
  {
    TrimmedJoined(tokens);
    var kept := WithoutFinalSemicolon(tokens);
    var s := Joined(kept);
    JoinedHasNoEscapedQuote(kept);
    NothingToUnescape(s);
    assert s[0..] == s;
    ScanJoined(s, 0, kept);
  }

  // ----- An escaped quote is never read back -----

  function Backslashes(s: string): nat {
    if s == "" then 0 else (if s[0] == '\\' then 1 else 0) + Backslashes(s[1..])
  }

  function TotalBackslashes(tokens: seq<string>): nat {
    if tokens == [] then 0 else Backslashes(tokens[0]) + TotalBackslashes(tokens[1..])
  }

  lemma {:induction false} BackslashesAppend(a: string, b: string)
    ensures Backslashes(a + b) == Backslashes(a) + Backslashes(b)
  {
    if a == "" {
      assert a + b == b;
    } else {
      BackslashesAppend(a[1..], b);
      assert (a + b)[1..] == a[1..] + b;
    }
  }

  lemma {:induction false} BackslashesLower(s: string)
    ensures Backslashes(Lower(s)) == Backslashes(s)
  {
    if s != "" {
      BackslashesLower(s[1..]);
      assert Lower(s)[1..] == Lower(s[1..]);
    }
  }

  lemma {:induction false} BackslashesJoined(tokens: seq<string>)
    ensures Backslashes(Joined(tokens)) == TotalBackslashes(tokens)
  {
    if |tokens| == 1 {
      assert tokens[1..] == [];
    } else if |tokens| > 1 {
      BackslashesJoined(tokens[1..]);
      BackslashesAppend(tokens[0] + " ", Joined(tokens[1..]));
      BackslashesAppend(tokens[0], " ");
    }
  }

  /** Unescaping takes a backslash away from every text with an escaped quote, and never adds one. */
  lemma {:induction false} UnescapingLosesBackslashes(s: string)
    ensures Backslashes(UnescapeQuotes(s)) <= Backslashes(s)
    ensures HasEscapedQuote(s) ==> Backslashes(UnescapeQuotes(s)) < Backslashes(s)
    decreases |s|
  {
    if EscapedQuoteAt(s, 0) {
      UnescapingLosesBackslashes(s[2..]);
      assert s[1..][1..] == s[2..];
      BackslashesAppend("'", UnescapeQuotes(s[2..]));
    } else if s != "" {
      UnescapingLosesBackslashes(s[1..]);
      BackslashesAppend([s[0]], UnescapeQuotes(s[1..]));
      EscapedQuoteInTail(s);
    }
  }

  lemma EscapedQuoteInTail(s: string)
    requires s != "" && !EscapedQuoteAt(s, 0)
    ensures HasEscapedQuote(s) ==> HasEscapedQuote(s[1..])
  {
    if HasEscapedQuote(s) {
      var i :| 0 <= i < |s| - 1 && EscapedQuoteAt(s, i);
      assert EscapedQuoteAt(s[1..], i - 1);
    }
  }

  lemma TokenAddsNoBackslash(s: string, i: nat)
    requires i < |s| && ScanAt(s, i).Emit?
    ensures Backslashes(ScanAt(s, i).token) == Backslashes(s[i..ScanAt(s, i).next])
  {
    var scan := ScanAt(s, i);
    BackslashesLower(s[i..scan.next]);
    assert OperatorAt(s, i, 0).None? ==> [LowerChar(s[i])] == Lower(s[i..i + 1]);
  }

  lemma {:induction false} ScanningAddsNoBackslash(s: string, i: nat)
    requires i <= |s| && TokensFrom(s, i).Ok?
    ensures TotalBackslashes(TokensFrom(s, i).value) <= Backslashes(s[i..])
    decreases |s| - i
  {
    if i < |s| {
      var scan := ScanAt(s, i);
      ScanningAddsNoBackslash(s, scan.next);
      assert s[i..] == s[i..scan.next] + s[scan.next..];
      BackslashesAppend(s[i..scan.next], s[scan.next..]);
      if scan.Emit? {
        TokenAddsNoBackslash(s, i);
        assert ([scan.token] + TokensFrom(s, scan.next).value)[1..] == TokensFrom(s, scan.next).value;
      }
    }
  }

  lemma {:induction false} JoinedKeepsEscapedQuote(tokens: seq<string>, t: string)
    requires t in tokens && HasEscapedQuote(t)
    ensures HasEscapedQuote(Joined(tokens))
  {
    if |tokens| > 1 {
      var first, rest, s := tokens[0], Joined(tokens[1..]), Joined(tokens);
      if first == t {
        var i :| 0 <= i < |t| - 1 && EscapedQuoteAt(t, i);
        assert EscapedQuoteAt(s, i);
      } else {
        JoinedKeepsEscapedQuote(tokens[1..], t);
        var i :| 0 <= i < |rest| - 1 && EscapedQuoteAt(rest, i);
        assert EscapedQuoteAt(s, |first| + 1 + i);
      }
    }
  }

  lemma {:induction false} FinalSemicolonHasNoBackslash(tokens: seq<string>)
    ensures TotalBackslashes(WithoutFinalSemicolon(tokens)) == TotalBackslashes(tokens)
  {
    if |tokens| == 1 {
      assert Backslashes(";") == 0 && tokens[1..] == [] && tokens[..0] == [];
    } else if |tokens| > 1 {
      FinalSemicolonHasNoBackslash(tokens[1..]);
      assert WithoutFinalSemicolon(tokens)[1..] == WithoutFinalSemicolon(tokens[1..]);
    }
  }

  /** Printed tokens of which one has an escaped quote are never read back: a backslash is gone. */
  lemma EscapedQuoteIsNeverReadBack(tokens: seq<string>, t: string)
    requires (forall u | u in tokens :: IsToken(u)) && t in tokens && HasEscapedQuote(t)
    ensures Tokenise(Joined(tokens)) != Ok(tokens)
  {
    hide IsToken, TokensFrom, UnescapeQuotes, Trimmed;
    TrimmedJoined(tokens);
    var kept := WithoutFinalSemicolon(tokens);
    var s := Joined(kept);
    assert t != ";" by {
      assert |t| >= 2;
    }
    assert t in kept;
    JoinedKeepsEscapedQuote(kept, t);
    UnescapingLosesBackslashes(s);
    BackslashesJoined(kept);
    FinalSemicolonHasNoBackslash(tokens);
    var source := UnescapeQuotes(s);
    assert source[0..] == source;
    if TokensFrom(source, 0).Ok? {
      ScanningAddsNoBackslash(source, 0);
    }
  }

  /**
   Any tokens, printed and tokenised again, come back exactly when none has an escaped quote and the
   last is no semicolon.
   */
  lemma JoinedIsReadBackIff(tokens: seq<string>)
    requires forall t | t in tokens :: IsToken(t)
    ensures Tokenise(Joined(tokens)) == Ok(tokens) <==>
            (forall t | t in tokens :: !HasEscapedQuote(t)) && (tokens == [] || tokens[|tokens| - 1] != ";")
  {
    hide IsToken, HasEscapedQuote, Tokenise;
    if t :| t in tokens && HasEscapedQuote(t) {
      EscapedQuoteIsNeverReadBack(tokens, t);
    } else {
      TokeniseJoined(tokens);
    }
  }

  /** So do the tokens of any text. */
  lemma TokeniseRoundTrip(text: string)
    requires Tokenise(text).Ok?
    ensures var tokens := Tokenise(text).value;
            Tokenise(Joined(tokens)) == Ok(tokens) <==>
            (forall t | t in tokens :: !HasEscapedQuote(t)) && (tokens == [] || tokens[|tokens| - 1] != ";")
  {
    ScannedTokensAreTokens(Prepared(text), 0);
    JoinedIsReadBackIff(Tokenise(text).value);
  }

  /** A literal token holding an escaped quote does not survive: printed again it no longer ends. */
  lemma EscapedQuoteIsLost()
    ensures Tokenise("'\\\\''") == Ok(["'\\''"])
    ensures Tokenise(Joined(["'\\''"])).Err?
  {
    hide TokensFrom, UnescapeQuotes;
    PreparedExamples("'\\\\''", "'\\''", "'''");
    ScanWholeLiteral("'\\''");
    ScanUnclosed("'''");
  }

  lemma PreparedExamples(text: string, once: string, bare: string)
    requires text == "'\\\\''" && once == "'\\''" && bare == "'''"
    ensures Prepared(text) == once && Prepared(once) == bare
  {
    hide UnescapeQuotes, Strip;
    NothingToStrip(text);
    NothingToStrip(once);
    NothingToUnescape("'");
    UnescapePair("'");
    assert "\\'" + "'" == "\\''" && "'" + "'" == "''";
    UnescapePlain('\\', "\\''");
    assert ['\\'] + "\\''" == "\\\\''" && ['\\'] + "''" == "\\''";
    UnescapePlain('\'', "\\\\''");
    assert ['\''] + "\\\\''" == text && ['\''] + "\\''" == once;
    UnescapePlain('\'', "\\''");
    assert ['\''] + "''" == bare;
  }

  lemma UnescapePlain(c: char, rest: string)
    requires c != '\\' || rest == "" || rest[0] != '\''
    ensures UnescapeQuotes([c] + rest) == [c] + UnescapeQuotes(rest)
  {
    assert ([c] + rest)[1..] == rest;
  }

  lemma UnescapePair(rest: string)
    ensures UnescapeQuotes("\\'" + rest) == "'" + UnescapeQuotes(rest)
  {
    assert ("\\'" + rest)[2..] == rest;
  }

  lemma ScanWholeLiteral(t: string)
    requires t == "'\\''"
    ensures TokensFrom(t, 0) == Ok([t])
  {
    assert LiteralEnd(t, 1) == LiteralEnd(t, 3) == Some(4);
    assert t[0..4] == t;
    assert ScanAt(t, 0) == Emit(t, 4);
    assert TokensFrom(t, 4) == Ok([]);
    assert [t] + [] == [t];
  }

  lemma ScanUnclosed(t: string)
    requires t == "'''"
    ensures TokensFrom(t, 0).Err?
  {
    assert LiteralEnd(t, 1) == LiteralEnd(t, 3) == None;
  }
}
