/**
  The tokenizer of the path-data parser (src/svgPreviewPanel.ts:318-329).
  The source matches the global pattern
  `([MmLlHhVvCcSsQqTtAaZz])|(-?\d*\.?\d+(?:e[+-]?\d+)?)`; here the pattern is an
  explicit scanner. A command letter is a one-character token. A number is an
  optional `-`, a mantissa (digits, or digits `.` digits, or `.` digits) and an
  optional exponent made of a lower-case `e`, an optional sign and digits; where
  the engine would backtrack (a `.` or `e` not followed by digits) the scanner
  stops before it. Every other character is a separator.

  The same number pattern is used by the formatter's `formatPoints`
  (src/svgFormatter.ts:115), so `NumberAt` is shared.
 */
module PathTokens {
  import opened Base

  predicate IsCommandLetter(c: char) {
    c in "MmLlHhVvCcSsQqTtAaZz"
  }

  /** End of the run of digits starting at `from`. */
  function DigitsEnd(s: string, from: nat): (e: nat)
    requires from <= |s|
    ensures from <= e <= |s|
    ensures forall j :: from <= j < e ==> IsDigit(s[j])
    ensures e < |s| ==> !IsDigit(s[e])
    decreases |s| - from
  {
    if from == |s| || !IsDigit(s[from]) then from else DigitsEnd(s, from + 1)
  }

  /** End of `\d*\.?\d+` matched at `p`: the fractional form when a digit follows the `.`,
      otherwise the integer form, which needs at least one digit. */
  function MantissaEnd(s: string, p: nat): (r: Option<nat>)
    requires p <= |s|
    ensures r.Some? ==> p < r.value <= |s| && IsDigit(s[r.value - 1])
  {
    var a := DigitsEnd(s, p);
    if a + 1 < |s| && s[a] == '.' && IsDigit(s[a + 1]) then Some(DigitsEnd(s, a + 1))
    else if a > p then Some(a)
    else None
  }

  /** End of the optional `e[+-]?\d+` at `m`; `m` itself when it is absent. */
  function ExponentEnd(s: string, m: nat): (e: nat)
    requires m <= |s|
    ensures m <= e <= |s|
    ensures e > m ==> s[m] == 'e' && IsDigit(s[e - 1])
  {
    if m < |s| && s[m] == 'e' then
      var q := if m + 1 < |s| && (s[m + 1] == '+' || s[m + 1] == '-') then m + 2 else m + 1;
      if q < |s| && IsDigit(s[q]) then DigitsEnd(s, q) else m
    else m
  }

  /** End of the number pattern matched at `i`, if it matches there. */
  function NumberAt(s: string, i: nat): (r: Option<nat>)
    requires i <= |s|
    ensures r.Some? ==> i < r.value <= |s| && IsDigit(s[r.value - 1])
    ensures r.Some? ==> IsDigit(s[i]) || s[i] == '-' || s[i] == '.'
  {
    var body := if i < |s| && s[i] == '-' then i + 1 else i;
    match MantissaEnd(s, body)
    case None => None
    case Some(m) => Some(ExponentEnd(s, m))
  }

  datatype PathToken =
    | Cmd(letter: char, start: nat, end: nat)
    | Num(text: string, start: nat, end: nat)

  /** Tokens lie inside `[lo, hi]`, are non-empty, and do not overlap, in text order. */
  predicate Ordered(toks: seq<PathToken>, lo: nat, hi: nat) {
    && (forall k :: 0 <= k < |toks| ==> lo <= toks[k].start < toks[k].end <= hi)
    && (forall k :: 0 < k < |toks| ==> toks[k - 1].end <= toks[k].start)
  }

  /** `t` is a match of the token pattern in `d`: a command letter, or a numeral. */
  predicate Matched(d: string, t: PathToken) {
    && t.start < t.end <= |d|
    && match t
       case Cmd(letter, start, end) => end == start + 1 && letter == d[start] && IsCommandLetter(letter)
       case Num(text, start, end) => text == d[start..end] && NumberAt(d, start) == Some(end)
  }

  function Prepend(t: PathToken, rest: seq<PathToken>): (r: seq<PathToken>)
    ensures |r| == |rest| + 1 && r[0] == t
    ensures forall k :: 0 < k < |r| ==> r[k] == rest[k - 1]
  {
    [t] + rest
  }

  /** Successive matches of the token pattern from `from` on. */
  function Tokenize(d: string, from: nat): (r: seq<PathToken>)
    requires from <= |d|
    ensures Ordered(r, from, |d|)
    ensures forall k :: 0 <= k < |r| ==> Matched(d, r[k])
    decreases |d| - from
  {
    if from == |d| then []
    else match TokenAt(d, from)
      case Some(t) =>
        var rest := Tokenize(d, t.end);
        OrderedCons(t, rest, from, |d|);
        Prepend(t, rest)
      case None => Tokenize(d, from + 1)
  }

  /** The match of the token pattern at `from`: a command letter first, then a number. */
  function TokenAt(d: string, from: nat): (r: Option<PathToken>)
    requires from < |d|
    ensures r.Some? ==> r.value.start == from && Matched(d, r.value)
  {
    if IsCommandLetter(d[from]) then Some(Cmd(d[from], from, from + 1))
    else match NumberAt(d, from)
      case Some(e) => Some(Num(d[from..e], from, e))
      case None => None
  }

  /** No token of `toks` covers position `p`. */
  predicate Uncovered(toks: seq<PathToken>, p: nat) {
    forall k :: 0 <= k < |toks| ==> !(toks[k].start <= p < toks[k].end)
  }

  /** The tokenizer misses no match: no token of the pattern starts at a position that
      none of the tokens covers. */
  lemma {:induction false} TokenizeComplete(d: string, from: nat, p: nat)
    requires from <= p < |d|
    requires Uncovered(Tokenize(d, from), p)
    ensures TokenAt(d, p).None?
    decreases |d| - from
  {
    var r := Tokenize(d, from);
    match TokenAt(d, from)
    case Some(t) =>
      var rest := Tokenize(d, t.end);
      assert r == Prepend(t, rest);
      assert !(r[0].start <= p < r[0].end);
      assert Uncovered(rest, p) by {
        forall k | 0 <= k < |rest| ensures !(rest[k].start <= p < rest[k].end) {
          assert rest[k] == r[k + 1];
        }
      }
      TokenizeComplete(d, t.end, p);
    case None =>
      if p > from {
        assert r == Tokenize(d, from + 1);
        TokenizeComplete(d, from + 1, p);
      }
  }

  lemma OrderedCons(t: PathToken, rest: seq<PathToken>, lo: nat, hi: nat)
    requires lo <= t.start < t.end <= hi && Ordered(rest, t.end, hi)
    ensures Ordered(Prepend(t, rest), lo, hi)
  {
  }

  function Pow10(n: nat): (p: nat)
    ensures p >= 1
  {
    if n == 0 then 1 else 10 * Pow10(n - 1)
  }

  function DigitValue(c: char): nat {
    if IsDigit(c) then c as int - '0' as int else 0
  }

  /** Value of a run of decimal digits. */
  function DigitsValue(s: string): nat {
    if s == [] then 0 else 10 * DigitsValue(s[..|s| - 1]) + DigitValue(s[|s| - 1])
  }

  /** The value of the digits after the decimal point: `0.digits`. */
  function FractionValue(digits: string): (r: real)
    ensures 0.0 <= r
    ensures digits == [] ==> r == 0.0
  {
    DigitsValue(digits) as real / Pow10(|digits|) as real
  }

  /** `m` times ten to the power `n`, or divided by it when `down`. */
  function Scaled(m: real, n: nat, down: bool): (r: real)
    requires 0.0 <= m
    ensures 0.0 <= r
    ensures n == 0 ==> r == m
  {
    var scale := Pow10(n) as real;
    assert 1.0 <= scale && (n == 0 ==> scale == 1.0);
    if down then m / scale else m * scale
  }

  /** `Number(token)` on a numeral the number pattern matched, computed exactly:
      sign, whole digits, fractional digits and decimal exponent. */
  function NumeralValue(t: string): (r: real)
    ensures (t == [] || t[0] != '-') ==> r >= 0.0
    ensures t != [] && t[0] == '-' ==> r <= 0.0
    ensures (forall k :: 0 <= k < |t| ==> IsDigit(t[k])) ==> r == DigitsValue(t) as real
  {
    var negative := t != [] && t[0] == '-';
    var u := if negative then t[1..] else t;
    var e := Find(u, 'e');
    var mantissa := u[..e];
    var dot := Find(mantissa, '.');
    assert (forall k :: 0 <= k < |t| ==> IsDigit(t[k])) ==> u == t && e == |t| && mantissa == t && dot == |t|;
    var fraction := if dot < |mantissa| then mantissa[dot + 1..] else [];
    var m := DigitsValue(mantissa[..dot]) as real + FractionValue(fraction);
    var exponent := if e < |u| then u[e + 1..] else [];
    var expNegative := exponent != [] && exponent[0] == '-';
    var expDigits := if exponent != [] && (exponent[0] == '-' || exponent[0] == '+') then exponent[1..] else exponent;
    var magnitude := Scaled(m, DigitsValue(expDigits), expNegative);
    if negative then -magnitude else magnitude
  }
}
