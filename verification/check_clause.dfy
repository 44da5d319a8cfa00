/**
 The CHECK-clause parser. It reads and/or expressions over opaque predicates, with any grouping
 parentheses, and returns a node in which nested connectives of one kind are flattened.
 Two constraints are taken to be the same when their nodes are equal.
 */
module CheckClause {
  import opened Results
  import CheckTokens

  datatype Kind = AndKind | OrKind

  datatype Node = Atom(tokens: seq<string>) | Op(kind: Kind, children: seq<Node>)

  type Parsed = Result<(Node, seq<string>), string>

  // ----- The parser, as functions of the remaining tokens -----

  predicate StartsWith(ts: seq<string>, token: string) {
    ts != [] && ts[0] == token
  }

  /** The nodes a part contributes to a connective of this kind. */
  function Spread(kind: Kind, n: Node): seq<Node> {
    if n.Op? && n.kind == kind then n.children else [n]
  }

  function Flatten(kind: Kind, parts: seq<Node>): seq<Node> {
    if parts == [] then [] else Flatten(kind, parts[..|parts| - 1]) + Spread(kind, parts[|parts| - 1])
  }

  function Combine(kind: Kind, parts: seq<Node>): Node {
    var flat := Flatten(kind, parts);
    if |flat| == 1 then flat[0] else Op(kind, flat)
  }

  /** How many tokens a predicate takes from here; None when its parentheses do not close. */
  function AtomLength(ts: seq<string>, depth: nat): (r: Option<nat>)
    ensures r.Some? ==> r.value <= |ts|
  {
    if ts == [] then if depth == 0 then Some(0) else None
    else if depth == 0 && (ts[0] == "and" || ts[0] == "or" || ts[0] == ")") then Some(0)
    else
      var next := if ts[0] == "(" then depth + 1 else if ts[0] == ")" then depth - 1 else depth;
      match AtomLength(ts[1..], next)
      case None => None
      case Some(n) => Some(n + 1)
  }

  function ParsePrimary(ts: seq<string>): (r: Parsed)
    ensures r.Ok? ==> |r.value.1| < |ts|
    decreases |ts|, 0
  {
    if StartsWith(ts, "(") then
      var (node, rest) :- ParseOrFrom([], ts[1..]);
      if StartsWith(rest, ")") then Ok((node, rest[1..])) else Err("Unbalanced parentheses in CHECK clause")
    else
      match AtomLength(ts, 0)
      case None => Err("Invalid CHECK predicate")
      case Some(n) => if n == 0 then Err("Invalid CHECK predicate") else Ok((Atom(ts[..n]), ts[n..]))
  }

  /** Read primaries joined by "and", after the parts read so far. */
  function ParseAndFrom(parts: seq<Node>, ts: seq<string>): (r: Parsed)
    ensures r.Ok? ==> |r.value.1| < |ts|
    decreases |ts|, 1
  {
    var (node, rest) :- ParsePrimary(ts);
    if StartsWith(rest, "and") then ParseAndFrom(parts + [node], rest[1..])
    else Ok((Combine(AndKind, parts + [node]), rest))
  }

  function ParseOrFrom(parts: seq<Node>, ts: seq<string>): (r: Parsed)
    ensures r.Ok? ==> |r.value.1| < |ts|
    decreases |ts|, 2
  {
    var (node, rest) :- ParseAndFrom([], ts);
    if StartsWith(rest, "or") then ParseOrFrom(parts + [node], rest[1..])
    else Ok((Combine(OrKind, parts + [node]), rest))
  }

  function Parse(ts: seq<string>): Result<Node, string> {
    if ts == [] then Err("Empty CHECK clause")
    else
      var (node, rest) :- ParseOrFrom([], ts);
      if rest == [] then Ok(node) else Err("Unsupported CHECK clause expression")
  }

  function AndTail(parts: seq<Node>, rest: seq<string>): Parsed {
    if StartsWith(rest, "and") then ParseAndFrom(parts, rest[1..]) else Ok((Combine(AndKind, parts), rest))
  }

  function OrTail(parts: seq<Node>, rest: seq<string>): Parsed {
    if StartsWith(rest, "or") then ParseOrFrom(parts, rest[1..]) else Ok((Combine(OrKind, parts), rest))
  }

  function Longer(n: nat, r: Option<nat>): Option<nat> {
    match r
    case None => None
    case Some(m) => Some(n + m)
  }

  lemma AndStep(parts: seq<Node>, ts: seq<string>)
    ensures var read := ParsePrimary(ts);
      ParseAndFrom(parts, ts) == if read.Err? then Err(read.error) else AndTail(parts + [read.value.0], read.value.1)
  {
    hide ParsePrimary, ParseOrFrom, Combine;
  }

  lemma OrStep(parts: seq<Node>, ts: seq<string>)
    ensures var read := ParseAndFrom([], ts);
      ParseOrFrom(parts, ts) == if read.Err? then Err(read.error) else OrTail(parts + [read.value.0], read.value.1)
  {
    hide ParsePrimary, ParseAndFrom, Combine;
  }

  /** A predicate goes on over this token. */
  predicate GoesOn(ts: seq<string>, depth: nat) {
    ts != [] && (depth > 0 || (ts[0] != "and" && ts[0] != "or" && ts[0] != ")"))
  }

  function DepthAfter(token: string, depth: nat): nat
    requires token == ")" ==> depth > 0
  {
    if token == "(" then depth + 1 else if token == ")" then depth - 1 else depth
  }

  lemma AtomStep(ts: seq<string>, depth: nat)
    ensures AtomLength(ts, depth) ==
      if GoesOn(ts, depth) then Longer(1, AtomLength(ts[1..], DepthAfter(ts[0], depth)))
      else if depth == 0 then Some(0) else None
  {
  }

  lemma PrimaryIsAtom(ts: seq<string>)
    requires !StartsWith(ts, "(")
    ensures var n := AtomLength(ts, 0);
      ParsePrimary(ts) ==
        if n.None? || n.value == 0 then Err("Invalid CHECK predicate") else Ok((Atom(ts[..n.value]), ts[n.value..]))
  {
    hide AtomLength;
  }

  lemma SliceOfRest<T>(s: seq<T>, a: nat, b: nat)
    requires a <= b <= |s|
    ensures s[a..][..b - a] == s[a..b] && s[a..][b - a..] == s[b..]
  {
  }

  // ----- The parser object -----

  class CheckClauseParser {
    const tokens: seq<string>
    var index: nat

    constructor (tokens: seq<string>)
      ensures this.tokens == tokens && index == 0
    {
      this.tokens := tokens;
      index := 0;
    }

    /** The call consumed what the functional parser consumes, or failed as it fails. */
    ghost predicate Agrees(start: nat, expected: Parsed, r: Result<Node, string>)
      reads this
    {
      && start <= index <= |tokens|
      && r.Ok? == expected.Ok?
      && (r.Ok? ==> expected == Ok((r.value, tokens[index..])) && start < index)
      && (r.Err? ==> expected == Err(r.error))
    }

    predicate PeekIs(token: string)
      reads this
      ensures index <= |tokens| ==> (PeekIs(token) <==> StartsWith(tokens[index..], token))
    {
      index < |tokens| && tokens[index] == token
    }

    method ParseClause() returns (r: Result<Node, string>)
      requires index == 0
      modifies this`index
      ensures r == Parse(tokens)
    {
      if tokens == [] {
        return Err("Empty CHECK clause");
      }
      assert tokens[0..] == tokens;
      r := ParseOr();
      if r.Ok? && index != |tokens| {
        return Err("Unsupported CHECK clause expression");
      }
    }

    method ParseOr() returns (r: Result<Node, string>)
      requires index <= |tokens|
      modifies this`index
      ensures Agrees(old(index), ParseOrFrom([], tokens[old(index)..]), r)
      decreases |tokens| - index, 2
    {
      hide ParseOrFrom, ParseAndFrom, ParsePrimary, Combine;
      OrStep([], tokens[index..]);
      var part := ParseAnd();
      if part.Err? {
        return part;
      }
      var parts := [part.value];
      assert [] + parts == parts;
      while PeekIs("or")
        invariant old(index) < index <= |tokens|
        invariant ParseOrFrom([], tokens[old(index)..]) == OrTail(parts, tokens[index..])
        decreases |tokens| - index
      {
        assert tokens[index..][1..] == tokens[index + 1..];
        index := index + 1;
        OrStep(parts, tokens[index..]);
        part := ParseAnd();
        if part.Err? {
          return part;
        }
        parts := parts + [part.value];
      }
      return Ok(Combine(OrKind, parts));
    }

    method ParseAnd() returns (r: Result<Node, string>)
      requires index <= |tokens|
      modifies this`index
      ensures Agrees(old(index), ParseAndFrom([], tokens[old(index)..]), r)
      decreases |tokens| - index, 1
    {
      hide ParseOrFrom, ParseAndFrom, ParsePrimary, Combine;
      AndStep([], tokens[index..]);
      var part := ParsePrimaryHere();
      if part.Err? {
        return part;
      }
      var parts := [part.value];
      assert [] + parts == parts;
      while PeekIs("and")
        invariant old(index) < index <= |tokens|
        invariant ParseAndFrom([], tokens[old(index)..]) == AndTail(parts, tokens[index..])
        decreases |tokens| - index
      {
        assert tokens[index..][1..] == tokens[index + 1..];
        index := index + 1;
        AndStep(parts, tokens[index..]);
        part := ParsePrimaryHere();
        if part.Err? {
          return part;
        }
        parts := parts + [part.value];
      }
      return Ok(Combine(AndKind, parts));
    }

    method ParsePrimaryHere() returns (r: Result<Node, string>)
      requires index <= |tokens|
      modifies this`index
      ensures Agrees(old(index), ParsePrimary(tokens[old(index)..]), r)
      decreases |tokens| - index, 0
    {
      if PeekIs("(") {
        index := index + 1;
        r := ParseOr();
        if r.Err? {
          return;
        }
        if !PeekIs(")") {
          return Err("Unbalanced parentheses in CHECK clause");
        }
        index := index + 1;
      } else {
        r := ParsePredicate();
      }
    }

    method ParsePredicate() returns (r: Result<Node, string>)
      requires index <= |tokens| && !StartsWith(tokens[index..], "(")
      modifies this`index
      ensures Agrees(old(index), ParsePrimary(tokens[old(index)..]), r)
    {
      hide ParsePrimary, ParseOrFrom, ParseAndFrom, AtomLength;
      var start: nat, depth: nat := index, 0;
      ghost var here := tokens[start..];
      PrimaryIsAtom(here);
      while index < |tokens|
        invariant start <= index <= |tokens|
        invariant AtomLength(here, 0) == Longer(index - start, AtomLength(tokens[index..], depth))
        decreases |tokens| - index
      {
        var token := tokens[index];
        if depth == 0 && (token == "and" || token == "or" || token == ")") {
          break;
        }
        AtomStep(tokens[index..], depth);
        assert tokens[index..][1..] == tokens[index + 1..];
        index := index + 1;
        if token == "(" {
          depth := depth + 1;
        } else if token == ")" {
          depth := depth - 1;
        }
      }
      AtomStep(tokens[index..], depth);
      if index == start || depth != 0 {
        return Err("Invalid CHECK predicate");
      }
      SliceOfRest(tokens, start, index);
      return Ok(Atom(tokens[start..index]));
    }
  }

  // ----- Expressions and how they are written down -----

  /** An and/or expression over predicates, with its grouping parentheses. */
  datatype Expr = EAtom(tokens: seq<string>) | EOp(kind: Kind, left: Expr, right: Expr) | EGroup(inner: Expr)

  /** Parentheses close, and no connective stands outside them. */
  predicate Balanced(ts: seq<string>, depth: nat) {
    if ts == [] then depth == 0
    else if ts[0] == "(" then Balanced(ts[1..], depth + 1)
    else if ts[0] == ")" then depth > 0 && Balanced(ts[1..], depth - 1)
    else (depth > 0 || (ts[0] != "and" && ts[0] != "or")) && Balanced(ts[1..], depth)
  }

  predicate IsPredicate(ts: seq<string>) {
    ts != [] && ts[0] != "(" && Balanced(ts, 0)
  }

  predicate WellFormed(e: Expr) {
    match e
    case EAtom(ts) => IsPredicate(ts)
    case EOp(_, l, r) => WellFormed(l) && WellFormed(r)
    case EGroup(x) => WellFormed(x)
  }

  function Print(e: Expr): seq<string> {
    match e
    case EAtom(ts) => ts
    case EGroup(x) => ["("] + Print(x) + [")"]
    case EOp(OrKind, l, r) => Print(l) + ["or"] + Print(r)
    case EOp(AndKind, l, r) => PrintConjunct(l) + ["and"] + PrintConjunct(r)
  }

  /** An operand of "and" needs parentheses when it is an "or". */
  function PrintConjunct(e: Expr): seq<string> {
    match e
    case EAtom(ts) => ts
    case EGroup(x) => ["("] + Print(x) + [")"]
    case EOp(OrKind, l, r) => ["("] + (Print(l) + ["or"] + Print(r)) + [")"]
    case EOp(AndKind, l, r) => PrintConjunct(l) + ["and"] + PrintConjunct(r)
  }

  /** Join two nodes under one connective. */
  function Join(kind: Kind, a: Node, b: Node): Node {
    Op(kind, Spread(kind, a) + Spread(kind, b))
  }

  /** The canonical node of an expression: its grouping and association forgotten. */
  function Norm(e: Expr): Node {
    match e
    case EAtom(ts) => Atom(ts)
    case EGroup(x) => Norm(x)
    case EOp(kind, l, r) => Join(kind, Norm(l), Norm(r))
  }

  // ----- Canonical nodes -----

  ghost predicate Canonical(n: Node) {
    n.Op? ==>
      && |n.children| >= 2
      && forall c | c in n.children :: Canonical(c) && !(c.Op? && c.kind == n.kind)
  }

  predicate Truth(n: Node, holds: seq<string> -> bool) {
    match n
    case Atom(ts) => holds(ts)
    case Op(AndKind, cs) => forall c | c in cs :: Truth(c, holds)
    case Op(OrKind, cs) => exists c | c in cs :: Truth(c, holds)
  }

  predicate Means(e: Expr, holds: seq<string> -> bool) {
    match e
    case EAtom(ts) => holds(ts)
    case EGroup(x) => Means(x, holds)
    case EOp(AndKind, l, r) => Means(l, holds) && Means(r, holds)
    case EOp(OrKind, l, r) => Means(l, holds) || Means(r, holds)
  }

  lemma JoinIsCanonical(kind: Kind, a: Node, b: Node)
    requires Canonical(a) && Canonical(b)
    ensures Canonical(Join(kind, a, b))
  {
  }

  /** No connective stands directly under one of its own kind, and each joins at least two parts. */
  lemma {:induction false} NormIsCanonical(e: Expr)
    ensures Canonical(Norm(e))
  {
    match e
    case EAtom(_) =>
    case EGroup(x) => NormIsCanonical(x);
    case EOp(kind, l, r) =>
      NormIsCanonical(l);
      NormIsCanonical(r);
      JoinIsCanonical(kind, Norm(l), Norm(r));
  }

  lemma SpreadKeepsTruth(kind: Kind, n: Node, holds: seq<string> -> bool)
    ensures kind.AndKind? ==> (Truth(n, holds) <==> forall c | c in Spread(kind, n) :: Truth(c, holds))
    ensures kind.OrKind? ==> (Truth(n, holds) <==> exists c | c in Spread(kind, n) :: Truth(c, holds))
  {
    if !(n.Op? && n.kind == kind) {
      assert Spread(kind, n) == [n] && n in [n];
    }
  }

  lemma JoinTruth(kind: Kind, a: Node, b: Node, holds: seq<string> -> bool)
    ensures kind.AndKind? ==> (Truth(Join(kind, a, b), holds) <==> Truth(a, holds) && Truth(b, holds))
    ensures kind.OrKind? ==> (Truth(Join(kind, a, b), holds) <==> Truth(a, holds) || Truth(b, holds))
  {
    SpreadKeepsTruth(kind, a, holds);
    SpreadKeepsTruth(kind, b, holds);
    var x, y := Spread(kind, a), Spread(kind, b);
    assert forall c :: c in x + y <==> c in x || c in y;
  }

  /** The node has the expression's truth value, whichever predicates hold. */
  lemma {:induction false} NormKeepsMeaning(e: Expr, holds: seq<string> -> bool)
    ensures Truth(Norm(e), holds) <==> Means(e, holds)
  {
    match e
    case EAtom(_) =>
    case EGroup(x) => NormKeepsMeaning(x, holds);
    case EOp(kind, l, r) =>
      NormKeepsMeaning(l, holds);
      NormKeepsMeaning(r, holds);
      JoinTruth(kind, Norm(l), Norm(r), holds);
  }

  // ----- The parser reads every expression -----

  /** The parts the "and" loop collects while reading a conjunct. */
  function AndParts(e: Expr): seq<Node> {
    if e.EOp? && e.kind.AndKind? then AndParts(e.left) + AndParts(e.right) else [Norm(e)]
  }

  function OrParts(e: Expr): seq<Node> {
    if e.EOp? && e.kind.OrKind? then OrParts(e.left) + OrParts(e.right) else [Norm(e)]
  }

  lemma FlattenNone(kind: Kind)
    ensures Flatten(kind, []) == []
  {
  }

  lemma FlattenSnoc(kind: Kind, parts: seq<Node>, n: Node)
    ensures Flatten(kind, parts + [n]) == Flatten(kind, parts) + Spread(kind, n)
  {
    hide Spread;
    assert (parts + [n])[..|parts|] == parts;
  }

  lemma {:induction false} FlattenAppend(kind: Kind, a: seq<Node>, b: seq<Node>)
    ensures Flatten(kind, a + b) == Flatten(kind, a) + Flatten(kind, b)
  {
    hide Spread, Flatten;
    if b == [] {
      assert a + b == a;
      FlattenNone(kind);
    } else {
      var front, last := b[..|b| - 1], b[|b| - 1];
      FlattenAppend(kind, a, front);
      assert a + b == (a + front) + [last] && b == front + [last];
      FlattenSnoc(kind, a + front, last);
      FlattenSnoc(kind, front, last);
    }
  }

  lemma FlattenOne(kind: Kind, n: Node)
    ensures Flatten(kind, [n]) == Spread(kind, n)
  {
    assert [n][..0] == [];
    assert Flatten(kind, [n]) == Flatten(kind, []) + Spread(kind, n);
  }

  lemma {:induction false} AndPartsFlatten(e: Expr)
    ensures Flatten(AndKind, AndParts(e)) == Spread(AndKind, Norm(e))
  {
    if e.EOp? && e.kind.AndKind? {
      AndPartsFlatten(e.left);
      AndPartsFlatten(e.right);
      FlattenAppend(AndKind, AndParts(e.left), AndParts(e.right));
    } else {
      FlattenOne(AndKind, Norm(e));
    }
  }

  lemma {:induction false} OrPartsFlatten(e: Expr)
    ensures Flatten(OrKind, OrParts(e)) == Spread(OrKind, Norm(e))
  {
    if e.EOp? && e.kind.OrKind? {
      OrPartsFlatten(e.left);
      OrPartsFlatten(e.right);
      FlattenAppend(OrKind, OrParts(e.left), OrParts(e.right));
    } else {
      FlattenOne(OrKind, Norm(e));
    }
  }

  lemma CombineSpread(kind: Kind, parts: seq<Node>, n: Node)
    requires Flatten(kind, parts) == Spread(kind, n) && Canonical(n)
    ensures Combine(kind, parts) == n
  {
    hide Flatten;
  }

  lemma CombinePartsIsNorm(e: Expr)
    ensures Combine(AndKind, AndParts(e)) == Norm(e)
    ensures Combine(OrKind, OrParts(e)) == Norm(e)
  {
    hide Combine, Canonical, Flatten, Norm, AndParts, OrParts, Spread;
    AndPartsFlatten(e);
    OrPartsFlatten(e);
    NormIsCanonical(e);
    CombineSpread(AndKind, AndParts(e), Norm(e));
    CombineSpread(OrKind, OrParts(e), Norm(e));
  }

  /** Where a predicate may stop. */
  predicate Stops(rest: seq<string>) {
    rest == [] || rest[0] == "and" || rest[0] == "or" || rest[0] == ")"
  }

  lemma {:induction false} BalancedRunIsTaken(ts: seq<string>, depth: nat, rest: seq<string>)
    requires Balanced(ts, depth) && Stops(rest)
    ensures AtomLength(ts + rest, depth) == Some(|ts|)
  {
    if ts == [] {
      assert ts + rest == rest;
    } else {
      assert (ts + rest)[1..] == ts[1..] + rest;
      BalancedRunIsTaken(ts[1..], if ts[0] == "(" then depth + 1 else if ts[0] == ")" then depth - 1 else depth, rest);
    }
  }

  lemma ParsePredicateTokens(ts: seq<string>, rest: seq<string>)
    requires IsPredicate(ts) && Stops(rest)
    ensures ParsePrimary(ts + rest) == Ok((Atom(ts), rest))
  {
    BalancedRunIsTaken(ts, 0, rest);
    assert (ts + rest)[..|ts|] == ts && (ts + rest)[|ts|..] == rest;
  }

  lemma ParseGrouped(inner: seq<string>, node: Node, rest: seq<string>)
    requires ParseOrFrom([], inner + ([")"] + rest)) == Ok((node, [")"] + rest))
    ensures ParsePrimary(["("] + inner + [")"] + rest) == Ok((node, rest))
  {
    hide ParseOrFrom, ParseAndFrom, AtomLength, Combine;
    assert (["("] + inner + [")"] + rest)[1..] == inner + ([")"] + rest);
    assert ([")"] + rest)[1..] == rest;
  }

  lemma {:induction false} ParsesConjunct(e: Expr, parts: seq<Node>, rest: seq<string>)
    requires WellFormed(e) && Stops(rest)
    ensures ParseAndFrom(parts, PrintConjunct(e) + rest) == AndTail(parts + AndParts(e), rest)
    decreases e, if e.EOp? && e.kind.OrKind? then 1 else 0
  {
    hide ParsePrimary, ParseAndFrom, ParseOrFrom, Combine, Norm, Print;
    if e.EOp? && e.kind.AndKind? {
      var after := ["and"] + (PrintConjunct(e.right) + rest);
      assert PrintConjunct(e) + rest == PrintConjunct(e.left) + after;
      ParsesConjunct(e.left, parts, after);
      assert after[1..] == PrintConjunct(e.right) + rest;
      ParsesConjunct(e.right, parts + AndParts(e.left), rest);
      assert parts + AndParts(e.left) + AndParts(e.right) == parts + AndParts(e);
    } else {
      ParsesOperand(e, rest);
      AndStep(parts, PrintConjunct(e) + rest);
    }
  }

  lemma NormOfAtom(ts: seq<string>)
    ensures Norm(EAtom(ts)) == Atom(ts)
  {
  }

  lemma NormOfGroup(x: Expr)
    ensures Norm(EGroup(x)) == Norm(x)
  {
  }

  lemma ParsesOperand(e: Expr, rest: seq<string>)
    requires WellFormed(e) && Stops(rest) && !(e.EOp? && e.kind.AndKind?)
    ensures ParsePrimary(PrintConjunct(e) + rest) == Ok((Norm(e), rest))
    decreases e, if e.EOp? && e.kind.OrKind? then 1 else 0, 0
  {
    hide ParsePrimary, ParseOrFrom, ParseAndFrom, Combine, OrParts, Norm;
    match e
    case EAtom(ts) =>
      ParsePredicateTokens(ts, rest);
      NormOfAtom(ts);
    case EGroup(x) =>
      NormOfGroup(x);
      ParsesDisjunction(x, [], [")"] + rest);
      assert [] + OrParts(x) == OrParts(x);
      CombinePartsIsNorm(x);
      ParseGrouped(Print(x), Norm(x), rest);
    case EOp(_, _, _) =>
      ParsesDisjunction(e, [], [")"] + rest);
      assert [] + OrParts(e) == OrParts(e);
      CombinePartsIsNorm(e);
      ParseGrouped(Print(e), Norm(e), rest);
  }

  lemma {:induction false} ParsesDisjunction(e: Expr, parts: seq<Node>, rest: seq<string>)
    requires WellFormed(e) && Stops(rest) && !StartsWith(rest, "and")
    ensures ParseOrFrom(parts, Print(e) + rest) == OrTail(parts + OrParts(e), rest)
    decreases e, if e.EOp? && e.kind.OrKind? then 0 else 1
  {
    hide ParsePrimary, ParseAndFrom, ParseOrFrom, Combine, Norm;
    if e.EOp? && e.kind.OrKind? {
      var after := ["or"] + (Print(e.right) + rest);
      assert Print(e) + rest == Print(e.left) + after;
      ParsesDisjunction(e.left, parts, after);
      assert after[1..] == Print(e.right) + rest;
      ParsesDisjunction(e.right, parts + OrParts(e.left), rest);
      assert parts + OrParts(e.left) + OrParts(e.right) == parts + OrParts(e);
    } else {
      ParsesConjunct(e, [], rest);
      assert [] + AndParts(e) == AndParts(e);
      CombinePartsIsNorm(e);
      OrStep(parts, Print(e) + rest);
    }
  }

  /** However an expression is grouped or associated, the parser consumes it all and returns its canonical node. */
  lemma ParsePrinted(e: Expr)
    requires WellFormed(e)
    ensures Parse(Print(e)) == Ok(Norm(e))
  {
    hide ParseOrFrom, ParseAndFrom, ParsePrimary, Combine, Norm, Print, OrParts, WellFormed;
    ParsesDisjunction(e, [], []);
    assert Print(e) + [] == Print(e) && [] + OrParts(e) == OrParts(e);
    CombinePartsIsNorm(e);
    PrintedIsNotEmpty(e);
  }

  lemma PrintedIsNotEmpty(e: Expr)
    requires WellFormed(e)
    ensures Print(e) != []
  {
  }

  // ----- Whatever the parser accepts is an expression -----

  lemma {:induction false} TakenRunIsBalanced(ts: seq<string>, depth: nat)
    requires AtomLength(ts, depth).Some?
    ensures Balanced(ts[..AtomLength(ts, depth).value], depth)
  {
    var n := AtomLength(ts, depth).value;
    if n > 0 {
      TakenRunIsBalanced(ts[1..], if ts[0] == "(" then depth + 1 else if ts[0] == ")" then depth - 1 else depth);
      assert ts[..n][1..] == ts[1..][..n - 1];
    }
  }

  lemma StartsWithHead(ts: seq<string>, token: string)
    requires StartsWith(ts, token)
    ensures ts != [] && ts[0] == token
  {
  }

  lemma {:induction false} ReadPrimary(ts: seq<string>) returns (e: Expr)
    requires ParsePrimary(ts).Ok?
    ensures WellFormed(e) && !e.EOp?
    ensures ts == PrintConjunct(e) + ParsePrimary(ts).value.1 && ParsePrimary(ts).value.0 == Norm(e)
    decreases |ts|, 0
  {
    hide ParsePrimary, ParseOrFrom, ParseAndFrom, Combine, AtomLength, Balanced;
    if StartsWith(ts, "(") {
      GroupRead(ts);
      var inner := ReadDisjunction([], ts[1..]);
      var close := ParseOrFrom([], ts[1..]).value.1;
      assert [] + OrParts(inner) == OrParts(inner);
      CombinePartsIsNorm(inner);
      assert close == [")"] + close[1..] && ts == ["("] + ts[1..];
      e := EGroup(inner);
    } else {
      PrimaryIsAtom(ts);
      TakenRunIsBalanced(ts, 0);
      e := EAtom(ts[..AtomLength(ts, 0).value]);
    }
  }

  lemma GroupRead(ts: seq<string>)
    requires StartsWith(ts, "(") && ParsePrimary(ts).Ok?
    ensures var inner := ParseOrFrom([], ts[1..]);
      inner.Ok? && StartsWith(inner.value.1, ")") && ParsePrimary(ts).value == (inner.value.0, inner.value.1[1..])
  {
    hide ParseOrFrom;
  }

  lemma Rejoined(ts: seq<string>, first: seq<string>, rest: seq<string>, others: seq<string>, after: seq<string>)
    requires ts == first + rest && rest != [] && rest[1..] == others + after
    ensures ts == first + [rest[0]] + others + after
  {
    assert rest == [rest[0]] + rest[1..];
  }

  lemma {:induction false} ReadConjunction(parts: seq<Node>, ts: seq<string>) returns (e: Expr)
    requires ParseAndFrom(parts, ts).Ok?
    ensures WellFormed(e) && !(e.EOp? && e.kind.OrKind?)
    ensures ts == PrintConjunct(e) + ParseAndFrom(parts, ts).value.1
    ensures ParseAndFrom(parts, ts).value.0 == Combine(AndKind, parts + AndParts(e))
    decreases |ts|, 1
  {
    hide ParseAndFrom, ParsePrimary, ParseOrFrom, Combine, Norm, StartsWith;
    AndStep(parts, ts);
    var first := ReadPrimary(ts);
    var node, rest := ParsePrimary(ts).value.0, ParsePrimary(ts).value.1;
    if StartsWith(rest, "and") {
      StartsWithHead(rest, "and");
      var others := ReadConjunction(parts + [node], rest[1..]);
      e := EOp(AndKind, first, others);
      Rejoined(ts, PrintConjunct(first), rest, PrintConjunct(others), ParseAndFrom(parts, ts).value.1);
      assert parts + [node] + AndParts(others) == parts + AndParts(e);
    } else {
      e := first;
    }
  }

  lemma ReadFirstConjunct(ts: seq<string>) returns (e: Expr)
    requires ParseAndFrom([], ts).Ok?
    ensures WellFormed(e) && OrParts(e) == [ParseAndFrom([], ts).value.0]
    ensures ts == Print(e) + ParseAndFrom([], ts).value.1
    decreases |ts|, 2
  {
    e := ReadConjunction([], ts);
    assert [] + AndParts(e) == AndParts(e);
    CombinePartsIsNorm(e);
  }

  lemma {:induction false} ReadDisjunction(parts: seq<Node>, ts: seq<string>) returns (e: Expr)
    requires ParseOrFrom(parts, ts).Ok?
    ensures WellFormed(e)
    ensures ts == Print(e) + ParseOrFrom(parts, ts).value.1
    ensures ParseOrFrom(parts, ts).value.0 == Combine(OrKind, parts + OrParts(e))
    decreases |ts|, 3
  {
    hide ParseAndFrom, ParsePrimary, ParseOrFrom, Combine, Norm, StartsWith;
    OrStep(parts, ts);
    var first := ReadFirstConjunct(ts);
    var node, rest := ParseAndFrom([], ts).value.0, ParseAndFrom([], ts).value.1;
    if StartsWith(rest, "or") {
      StartsWithHead(rest, "or");
      var others := ReadDisjunction(parts + [node], rest[1..]);
      e := EOp(OrKind, first, others);
      Rejoined(ts, Print(first), rest, Print(others), ParseOrFrom(parts, ts).value.1);
      assert parts + [node] + OrParts(others) == parts + OrParts(e);
    } else {
      e := first;
    }
  }

  /** The parser accepts exactly the printed expressions, and the node it returns is the expression's own. */
  lemma ParserAcceptsExactlyExpressions(ts: seq<string>)
    ensures Parse(ts).Ok? <==> exists e :: WellFormed(e) && Print(e) == ts
    ensures forall e | WellFormed(e) && Print(e) == ts :: Parse(ts) == Ok(Norm(e))
  {
    forall e | WellFormed(e) && Print(e) == ts
      ensures Parse(ts) == Ok(Norm(e))
    {
      ParsePrinted(e);
    }
    if Parse(ts).Ok? {
      var e := ReadDisjunction([], ts);
      assert Print(e) + [] == Print(e);
    }
  }

  // ----- Equal nodes mean equal up to association and grouping -----

  /** One rearrangement: add or drop a pair of parentheses, or re-associate, at any place. */
  predicate Rearranges(a: Expr, b: Expr) {
    || a == EGroup(b)
    || b == EGroup(a)
    || Reassociates(a, b)
    || Reassociates(b, a)
    || (a.EGroup? && b.EGroup? && Rearranges(a.inner, b.inner))
    || (a.EOp? && b.EOp? && a.kind == b.kind &&
        ((a.left == b.left && Rearranges(a.right, b.right)) || (Rearranges(a.left, b.left) && a.right == b.right)))
  }

  predicate Reassociates(a: Expr, b: Expr) {
    && a.EOp? && a.left.EOp? && a.left.kind == a.kind
    && b == EOp(a.kind, a.left.left, EOp(a.kind, a.left.right, a.right))
  }

  /** A chain of rearrangements from one expression to another. */
  ghost predicate IsChain(path: seq<Expr>, a: Expr, b: Expr) {
    && path != [] && path[0] == a && path[|path| - 1] == b
    && forall i | 0 <= i < |path| - 1 :: Rearranges(path[i], path[i + 1])
  }

  ghost predicate SameUpToGrouping(a: Expr, b: Expr) {
    exists path :: IsChain(path, a, b)
  }

  lemma JoinAssociates(kind: Kind, a: Node, b: Node, c: Node)
    ensures Join(kind, Join(kind, a, b), c) == Join(kind, a, Join(kind, b, c))
  {
    var x, y, z := Spread(kind, a), Spread(kind, b), Spread(kind, c);
    assert x + y + z == x + (y + z);
  }

  lemma {:induction false} RearrangingKeepsNorm(a: Expr, b: Expr)
    requires Rearranges(a, b)
    ensures Norm(a) == Norm(b)
  {
    if a == EGroup(b) || b == EGroup(a) {
    } else if Reassociates(a, b) {
      JoinAssociates(a.kind, Norm(a.left.left), Norm(a.left.right), Norm(a.right));
    } else if Reassociates(b, a) {
      JoinAssociates(b.kind, Norm(b.left.left), Norm(b.left.right), Norm(b.right));
    } else if a.EGroup? {
      RearrangingKeepsNorm(a.inner, b.inner);
    } else if a.left == b.left && Rearranges(a.right, b.right) {
      RearrangingKeepsNorm(a.right, b.right);
    } else {
      RearrangingKeepsNorm(a.left, b.left);
    }
  }

  lemma {:induction false} ChainKeepsNorm(path: seq<Expr>, a: Expr, b: Expr)
    requires IsChain(path, a, b)
    ensures Norm(a) == Norm(b)
    decreases |path|
  {
    if |path| > 1 {
      RearrangingKeepsNorm(path[0], path[1]);
      ChainKeepsNorm(path[1..], path[1], b);
    }
  }

  lemma Same(a: Expr)
    ensures SameUpToGrouping(a, a)
  {
    assert IsChain([a], a, a);
  }

  lemma OneStep(a: Expr, b: Expr)
    requires Rearranges(a, b)
    ensures SameUpToGrouping(a, b)
  {
    assert IsChain([a, b], a, b);
  }

  lemma Chained(a: Expr, b: Expr, c: Expr)
    requires SameUpToGrouping(a, b) && SameUpToGrouping(b, c)
    ensures SameUpToGrouping(a, c)
  {
    var p, q :| IsChain(p, a, b) && IsChain(q, b, c);
    assert IsChain(p + q[1..], a, c);
  }

  lemma {:induction false} RearrangesSymmetric(a: Expr, b: Expr)
    requires Rearranges(a, b)
    ensures Rearranges(b, a)
  {
    if a == EGroup(b) || b == EGroup(a) || Reassociates(a, b) || Reassociates(b, a) {
    } else if a.EGroup? {
      RearrangesSymmetric(a.inner, b.inner);
    } else if a.left == b.left && Rearranges(a.right, b.right) {
      RearrangesSymmetric(a.right, b.right);
    } else {
      RearrangesSymmetric(a.left, b.left);
    }
  }

  lemma {:induction false} Reversed(path: seq<Expr>, a: Expr, b: Expr)
    requires IsChain(path, a, b)
    ensures SameUpToGrouping(b, a)
    decreases |path|
  {
    if |path| == 1 {
      Same(a);
    } else {
      RearrangesSymmetric(path[0], path[1]);
      Reversed(path[1..], path[1], b);
      OneStep(path[1], a);
      Chained(b, path[1], a);
    }
  }

  lemma {:induction false} RearrangeRight(kind: Kind, l: Expr, path: seq<Expr>, a: Expr, b: Expr)
    requires IsChain(path, a, b)
    ensures SameUpToGrouping(EOp(kind, l, a), EOp(kind, l, b))
    decreases |path|
  {
    if |path| == 1 {
      Same(EOp(kind, l, a));
    } else {
      RearrangeRight(kind, l, path[1..], path[1], b);
      OneStep(EOp(kind, l, a), EOp(kind, l, path[1]));
      Chained(EOp(kind, l, a), EOp(kind, l, path[1]), EOp(kind, l, b));
    }
  }

  lemma {:induction false} RearrangeLeft(kind: Kind, r: Expr, path: seq<Expr>, a: Expr, b: Expr)
    requires IsChain(path, a, b)
    ensures SameUpToGrouping(EOp(kind, a, r), EOp(kind, b, r))
    decreases |path|
  {
    if |path| == 1 {
      Same(EOp(kind, a, r));
    } else {
      RearrangeLeft(kind, r, path[1..], path[1], b);
      OneStep(EOp(kind, a, r), EOp(kind, path[1], r));
      Chained(EOp(kind, a, r), EOp(kind, path[1], r), EOp(kind, b, r));
    }
  }

  lemma RearrangeOperands(kind: Kind, l: Expr, r: Expr, l': Expr, r': Expr)
    requires SameUpToGrouping(l, l') && SameUpToGrouping(r, r')
    ensures SameUpToGrouping(EOp(kind, l, r), EOp(kind, l', r'))
  {
    var p, q :| IsChain(p, l, l') && IsChain(q, r, r');
    RearrangeLeft(kind, r, p, l, l');
    RearrangeRight(kind, l', q, r, r');
    Chained(EOp(kind, l, r), EOp(kind, l', r), EOp(kind, l', r'));
  }

  /** The right-nested expression of a node. */
  function Spelled(n: Node): Expr
    decreases n, 1
  {
    match n
    case Atom(ts) => EAtom(ts)
    case Op(kind, cs) => SpelledAll(kind, cs)
  }

  function SpelledAll(kind: Kind, ns: seq<Node>): Expr
    decreases ns, 0
  {
    if ns == [] then EAtom([])
    else if |ns| == 1 then Spelled(ns[0])
    else EOp(kind, Spelled(ns[0]), SpelledAll(kind, ns[1..]))
  }

  lemma {:induction false} JoinSpellings(kind: Kind, xs: seq<Node>, ys: seq<Node>)
    requires xs != [] && ys != []
    ensures SameUpToGrouping(EOp(kind, SpelledAll(kind, xs), SpelledAll(kind, ys)), SpelledAll(kind, xs + ys))
  {
    var a, b := SpelledAll(kind, xs), SpelledAll(kind, ys);
    if |xs| == 1 {
      assert (xs + ys)[1..] == ys;
      Same(EOp(kind, a, b));
    } else {
      var head, tail := Spelled(xs[0]), SpelledAll(kind, xs[1..]);
      assert (xs + ys)[1..] == xs[1..] + ys;
      JoinSpellings(kind, xs[1..], ys);
      OneStep(EOp(kind, a, b), EOp(kind, head, EOp(kind, tail, b)));
      Same(head);
      RearrangeOperands(kind, head, EOp(kind, tail, b), head, SpelledAll(kind, xs[1..] + ys));
      Chained(EOp(kind, a, b), EOp(kind, head, EOp(kind, tail, b)), SpelledAll(kind, xs + ys));
    }
  }

  lemma SpelledSpread(kind: Kind, n: Node)
    requires Canonical(n)
    ensures Spread(kind, n) != [] && SpelledAll(kind, Spread(kind, n)) == Spelled(n)
  {
  }

  /** Every expression can be rearranged into the spelling of its canonical node. */
  lemma {:induction false} RearrangesToSpelling(e: Expr)
    ensures SameUpToGrouping(e, Spelled(Norm(e)))
  {
    match e
    case EAtom(_) => Same(e);
    case EGroup(x) =>
      RearrangesToSpelling(x);
      OneStep(e, x);
      Chained(e, x, Spelled(Norm(e)));
    case EOp(kind, l, r) =>
      var a, b := Norm(l), Norm(r);
      RearrangesToSpelling(l);
      RearrangesToSpelling(r);
      NormIsCanonical(l);
      NormIsCanonical(r);
      SpelledSpread(kind, a);
      SpelledSpread(kind, b);
      RearrangeOperands(kind, l, r, Spelled(a), Spelled(b));
      JoinSpellings(kind, Spread(kind, a), Spread(kind, b));
      Chained(e, EOp(kind, Spelled(a), Spelled(b)), Spelled(Norm(e)));
  }

  /** Two expressions get the same node exactly when one can be regrouped and re-associated into the other. */
  lemma SameNodeIffSameUpToGrouping(a: Expr, b: Expr)
    ensures Norm(a) == Norm(b) <==> SameUpToGrouping(a, b)
  {
    if SameUpToGrouping(a, b) {
      var path :| IsChain(path, a, b);
      ChainKeepsNorm(path, a, b);
    }
    if Norm(a) == Norm(b) {
      RearrangesToSpelling(a);
      RearrangesToSpelling(b);
      var path :| IsChain(path, b, Spelled(Norm(b)));
      Reversed(path, b, Spelled(Norm(b)));
      Chained(a, Spelled(Norm(b)), b);
    }
  }

  // ----- From clause text to node -----

  function Canonicalise(text: string): Result<Node, string> {
    var tokens :- CheckTokens.Tokenise(text);
    Parse(tokens)
  }

  /** The expression's tokens, written with a space between them, are read back as they are. */
  predicate Writable(e: Expr) {
    && WellFormed(e)
    && (forall t | t in Print(e) :: CheckTokens.IsToken(t) && !CheckTokens.HasEscapedQuote(t))
    && (Print(e) != [] ==> Print(e)[|Print(e)| - 1] != ";")
  }

  /** Two written clauses canonicalise alike exactly when they are one expression up to association and grouping. */
  lemma TextsAgreeIffSameUpToGrouping(a: Expr, b: Expr)
    requires Writable(a) && Writable(b)
    ensures Canonicalise(CheckTokens.Joined(Print(a))) == Ok(Norm(a))
    ensures Canonicalise(CheckTokens.Joined(Print(a))) == Canonicalise(CheckTokens.Joined(Print(b))) <==>
      SameUpToGrouping(a, b)
  {
    hide Parse, Norm, Print, WellFormed, SameUpToGrouping;
    hide CheckTokens.IsToken, CheckTokens.HasEscapedQuote, CheckTokens.Tokenise, CheckTokens.Joined;
    CheckTokens.TokeniseJoined(Print(a));
    CheckTokens.TokeniseJoined(Print(b));
    ParsePrinted(a);
    ParsePrinted(b);
    SameNodeIffSameUpToGrouping(a, b);
  }
}
