/**
 Redis stream ids as the Lua scripts see them: two decimal strings joined by a dash.
 The scripts compare the strings themselves, because a Lua number loses digits above 2^53.
 The module proves that this comparison is the numeric one for strings of any length,
 with any number of leading zeros.
 */
module StreamIds {
  import opened Results
  import opened Text

  /** The numeric meaning of a stream id. */
  datatype Id = Id(ms: nat, seqNo: nat)

  predicate Less(a: Id, b: Id) {
    a.ms < b.ms || (a.ms == b.ms && a.seqNo < b.seqNo)
  }

  predicate AtLeast(a: Id, b: Id) {
    !Less(a, b)
  }

  // ----- Decimal strings -----

  predicate AllDigits(s: string) {
    forall i | 0 <= i < |s| :: IsDigit(s[i])
  }

  function DigitValue(c: char): nat
    requires IsDigit(c)
  {
    c as int - '0' as int
  }

  function Pow10(n: nat): nat {
    if n == 0 then 1 else 10 * Pow10(n - 1)
  }

  /** The number a digit string denotes, by position. */
  function Value(s: string): nat
    requires AllDigits(s)
  {
    if s == "" then 0 else DigitValue(s[0]) * Pow10(|s| - 1) + Value(s[1..])
  }

  /** The decimal form Redis prints. */
  function ToDecimal(n: nat): (s: string)
    ensures s != "" && AllDigits(s)
  {
    var last := [(n % 10 + '0' as int) as char];
    if n < 10 then last else ToDecimal(n / 10) + last
  }

  // ----- The Lua comparison -----

  /** string.gsub(s, '^0+', '') */
  function StripZeros(s: string): string {
    if s != "" && s[0] == '0' then StripZeros(s[1..]) else s
  }

  function Canonical(s: string): string {
    var t := StripZeros(s);
    if t == "" then "0" else t
  }

  /** Lua's string order in the C locale Redis runs scripts in. */
  predicate LexGreater(l: string, r: string) {
    l != "" && (r == "" || l[0] > r[0] || (l[0] == r[0] && LexGreater(l[1..], r[1..])))
  }

  function DecimalCompare(left: string, right: string): int {
    var l, r := Canonical(left), Canonical(right);
    if |l| != |r| then
      if |l| > |r| then 1 else -1
    else if l == r then 0
    else if LexGreater(l, r) then 1 else -1
  }

  function LeadingDigits(s: string): (n: nat)
    ensures n <= |s| && AllDigits(s[..n])
    ensures n < |s| ==> !IsDigit(s[n])
  {
    if s != "" && IsDigit(s[0]) then 1 + LeadingDigits(s[1..]) else 0
  }

  /** string.match(s, '^(%d+)%-(%d+)$') */
  function MatchId(s: string): (r: Option<(string, string)>)
    ensures r.Some? ==> s == r.value.0 + "-" + r.value.1
    ensures r.Some? ==> AllDigits(r.value.0) && AllDigits(r.value.1)
  {
    var n := LeadingDigits(s);
    if 0 < n < |s| - 1 && s[n] == '-' && AllDigits(s[n + 1..])
    then Some((s[..n], s[n + 1..]))
    else None
  }

  predicate IdGte(left: string, right: string) {
    match (MatchId(left), MatchId(right))
    case (Some((leftMs, leftSeq)), Some((rightMs, rightSeq))) =>
      var order := DecimalCompare(leftMs, rightMs);
      order > 0 || (order == 0 && DecimalCompare(leftSeq, rightSeq) >= 0)
    case _ => false
  }

  // ----- Numeric reading of id strings -----

  /** The id a string denotes when Redis parses it. */
  function ParseId(s: string): Option<Id> {
    match MatchId(s)
    case Some((ms, seqNo)) => Some(Id(Value(ms), Value(seqNo)))
    case None => None
  }

  function RenderId(id: Id): string {
    ToDecimal(id.ms) + "-" + ToDecimal(id.seqNo)
  }

  // ----- Values of digit strings -----

  lemma {:induction false} Pow10Monotone(a: nat, b: nat)
    requires a <= b
    ensures 1 <= Pow10(a) <= Pow10(b)
    decreases b
  {
    if a < b {
      Pow10Monotone(a, b - 1);
    } else if a > 0 {
      Pow10Monotone(a - 1, b - 1);
    }
  }

  lemma {:induction false} ValueUpperBound(s: string)
    requires AllDigits(s)
    ensures Value(s) < Pow10(|s|)
  {
    if s != "" {
      ValueUpperBound(s[1..]);
      AtMostNineTimes(DigitValue(s[0]), Pow10(|s| - 1));
    }
  }

  lemma AtMostNineTimes(d: nat, p: nat)
    requires d <= 9
    ensures d * p <= 9 * p
  {
  }

  lemma ValueLowerBound(s: string)
    requires AllDigits(s) && s != "" && s[0] != '0'
    ensures Pow10(|s| - 1) <= Value(s)
  {
    var d, p := DigitValue(s[0]), Pow10(|s| - 1);
    assert 1 * p <= d * p;
  }

  lemma {:induction false} StripZerosKeepsValue(s: string)
    requires AllDigits(s)
    ensures AllDigits(StripZeros(s)) && Value(StripZeros(s)) == Value(s)
    ensures StripZeros(s) != "" ==> StripZeros(s)[0] != '0'
  {
    if s != "" && s[0] == '0' {
      StripZerosKeepsValue(s[1..]);
    }
  }

  lemma CanonicalKeepsValue(s: string)
    requires AllDigits(s)
    ensures AllDigits(Canonical(s)) && Value(Canonical(s)) == Value(s)
    ensures |Canonical(s)| > 1 ==> Canonical(s)[0] != '0'
  {
    StripZerosKeepsValue(s);
  }

  lemma LeadingDigitDecides(a: nat, b: nat, p: nat, x: nat, y: nat)
    requires a > b && y < p
    ensures a * p + x > b * p + y
  {
    assert a * p >= (b + 1) * p;
    assert (b + 1) * p == b * p + p;
  }

  lemma ValueSplit(s: string)
    requires AllDigits(s) && s != ""
    ensures AllDigits(s[1..]) && Value(s) == DigitValue(s[0]) * Pow10(|s| - 1) + Value(s[1..])
  {
  }

  lemma LexGreaterSplit(l: string, r: string)
    requires |l| == |r|
    ensures LexGreater(l, r) <==> l != "" && (l[0] > r[0] || (l[0] == r[0] && LexGreater(l[1..], r[1..])))
  {
  }

  /** For strings of one length, Lua's string order is the order of the numbers. */
  lemma {:induction false} SameLengthOrder(l: string, r: string)
    requires AllDigits(l) && AllDigits(r) && |l| == |r|
    ensures LexGreater(l, r) <==> Value(l) > Value(r)
    ensures l == r <==> Value(l) == Value(r)
  {
    hide Value, Pow10, LexGreater;
    if l == "" {
      assert r == "";
      LexGreaterSplit(l, r);
    } else {
      var a, b, p := DigitValue(l[0]), DigitValue(r[0]), Pow10(|l| - 1);
      var x, y := Value(l[1..]), Value(r[1..]);
      ValueSplit(l);
      ValueSplit(r);
      LexGreaterSplit(l, r);
      if a > b {
        ValueUpperBound(r[1..]);
        LeadingDigitDecides(a, b, p, x, y);
      } else if a < b {
        ValueUpperBound(l[1..]);
        LeadingDigitDecides(b, a, p, y, x);
      } else {
        SameLengthOrder(l[1..], r[1..]);
        assert l == [l[0]] + l[1..] && r == [r[0]] + r[1..];
      }
    }
  }

  lemma LongerIsLarger(l: string, r: string)
    requires AllDigits(l) && AllDigits(r) && |l| > |r| && l[0] != '0'
    ensures Value(l) > Value(r)
  {
    ValueLowerBound(l);
    ValueUpperBound(r);
    Pow10Monotone(|r|, |l| - 1);
  }

  /** decimal_compare orders digit strings of any length, leading zeros included, by their numbers. */
  lemma DecimalCompareIsNumeric(l: string, r: string)
    requires AllDigits(l) && AllDigits(r)
    ensures DecimalCompare(l, r) == (if Value(l) > Value(r) then 1 else if Value(l) == Value(r) then 0 else -1)
  {
    CanonicalKeepsValue(l);
    CanonicalKeepsValue(r);
    var a, b := Canonical(l), Canonical(r);
    if |a| > |b| {
      LongerIsLarger(a, b);
    } else if |a| < |b| {
      LongerIsLarger(b, a);
    } else {
      SameLengthOrder(a, b);
    }
  }

  /** id_gte holds exactly when both strings are ids and the left one is numerically not smaller. */
  lemma IdGteIsNumericOrder(left: string, right: string)
    ensures IdGte(left, right) <==>
            ParseId(left).Some? && ParseId(right).Some? && AtLeast(ParseId(left).value, ParseId(right).value)
  {
    if MatchId(left).Some? && MatchId(right).Some? {
      var l, r := MatchId(left).value, MatchId(right).value;
      DecimalCompareIsNumeric(l.0, r.0);
      DecimalCompareIsNumeric(l.1, r.1);
    }
  }

  // ----- Rendering round trip -----

  lemma TenTimes(d: nat, p: nat)
    ensures d * (10 * p) == 10 * (d * p)
  {
  }

  lemma {:induction false} ValueOfAppend(s: string, c: char)
    requires AllDigits(s) && IsDigit(c)
    ensures AllDigits(s + [c]) && Value(s + [c]) == 10 * Value(s) + DigitValue(c)
  {
    if s == "" {
      assert s + [c] == [c];
    } else {
      ValueOfAppend(s[1..], c);
      assert (s + [c])[1..] == s[1..] + [c];
      TenTimes(DigitValue(s[0]), Pow10(|s| - 1));
    }
  }

  lemma {:induction false} ToDecimalRoundTrip(n: nat)
    ensures Value(ToDecimal(n)) == n
  {
    var c := (n % 10 + '0' as int) as char;
    if n < 10 {
      assert [c][1..] == "";
    } else {
      ToDecimalRoundTrip(n / 10);
      ValueOfAppend(ToDecimal(n / 10), c);
    }
  }

  lemma {:induction false} LeadingDigitsStopAt(digits: string, rest: string)
    requires AllDigits(digits) && rest != "" && !IsDigit(rest[0])
    ensures LeadingDigits(digits + rest) == |digits|
  {
    if digits == "" {
      assert digits + rest == rest;
    } else {
      LeadingDigitsStopAt(digits[1..], rest);
      assert (digits + rest)[1..] == digits[1..] + rest;
    }
  }

  /** Redis reads back the id it printed. */
  lemma RenderRoundTrip(id: Id)
    ensures ParseId(RenderId(id)) == Some(id)
    ensures '|' !in RenderId(id)
  {
    hide ToDecimal, LeadingDigits, Value;
    var ms, seqNo := ToDecimal(id.ms), ToDecimal(id.seqNo);
    assert RenderId(id) == ms + ("-" + seqNo);
    LeadingDigitsStopAt(ms, "-" + seqNo);
    assert RenderId(id)[..|ms|] == ms && RenderId(id)[|ms| + 1..] == seqNo;
    ToDecimalRoundTrip(id.ms);
    ToDecimalRoundTrip(id.seqNo);
  }
}
