/**
  Shared vocabulary of the model: an Option type, plane points, the character
  classes the extension's regular expressions use (`\s`, `\w`, `\d`, ASCII
  letters), and the few JavaScript string primitives whose edge cases matter
  (`trim`, `substring`, `lastIndexOf`).
 */
module Base {

  datatype Option<+T> = None | Some(value: T)

  /** A point of the drawing plane; coordinates are exact reals. */
  datatype Point = Point(x: real, y: real)

  function Add(p: Point, dx: real, dy: real): Point {
    Point(p.x + dx, p.y + dy)
  }

  /** The class `\s` of JavaScript regular expressions (WhiteSpace and LineTerminator),
      which is also the set of characters `String.prototype.trim` removes. */
  predicate IsSpace(c: char) {
    c == '\t' || c == '\n' || c == '\U{000B}' || c == '\U{000C}' || c == '\r' || c == ' '
    || c == '\U{00A0}' || c == '\U{1680}' || ('\U{2000}' <= c <= '\U{200A}')
    || c == '\U{2028}' || c == '\U{2029}' || c == '\U{202F}' || c == '\U{205F}'
    || c == '\U{3000}' || c == '\U{FEFF}'
  }

  predicate IsDigit(c: char) {
    '0' <= c <= '9'
  }

  predicate IsAsciiLetter(c: char) {
    ('a' <= c <= 'z') || ('A' <= c <= 'Z')
  }

  /** The class `\w`: ASCII letters, digits and underscore. */
  predicate IsWordChar(c: char) {
    IsAsciiLetter(c) || IsDigit(c) || c == '_'
  }

  predicate AllSpace(s: string) {
    forall i :: 0 <= i < |s| ==> IsSpace(s[i])
  }

  /** ASCII upper-casing, which is all `toUpperCase` does to the letters these scanners accept. */
  function ToUpper(c: char): (u: char)
    ensures IsAsciiLetter(c) ==> IsAsciiLetter(u)
    ensures 'a' <= c <= 'z' ==> 'A' <= u <= 'Z'
    ensures ('A' <= c <= 'Z' || !IsAsciiLetter(c)) ==> u == c
  {
    if 'a' <= c <= 'z' then (c as int - 32) as char else c
  }

  /** Number of leading whitespace characters. */
  function LeadingSpace(s: string): (n: nat)
    ensures n <= |s|
    ensures AllSpace(s[..n])
    ensures n < |s| ==> !IsSpace(s[n])
  {
    if s == [] || !IsSpace(s[0]) then 0
    else
      var n := 1 + LeadingSpace(s[1..]);
      assert s[1..][..n - 1] == s[1..n];
      n
  }

  /** Number of trailing whitespace characters. */
  function TrailingSpace(s: string): (n: nat)
    ensures n <= |s|
    ensures AllSpace(s[|s| - n..])
    ensures n < |s| ==> !IsSpace(s[|s| - n - 1])
  {
    if s == [] || !IsSpace(s[|s| - 1]) then 0
    else 1 + TrailingSpace(s[..|s| - 1])
  }

  /** `String.prototype.trim`. */
  function Trim(s: string): (t: string)
    ensures |t| <= |s|
    ensures t == [] || (!IsSpace(t[0]) && !IsSpace(t[|t| - 1]))
    ensures t == [] <==> AllSpace(s)
  {
    var a := LeadingSpace(s);
    var rest := s[a..];
    var b := TrailingSpace(rest);
    assert rest == [] ==> AllSpace(s);
    assert rest != [] ==> !IsSpace(rest[0]);
    rest[..|rest| - b]
  }

  /** `String.prototype.substring(a, b)`: both bounds clamped to the string, and swapped when `a > b`. */
  function Substring(s: string, a: int, b: int): (t: string)
    ensures |t| <= |s|
    ensures 0 <= a <= b <= |s| ==> t == s[a..b]
    ensures 0 <= b <= a <= |s| ==> t == s[b..a]
  {
    var lo := if a < 0 then 0 else if a > |s| then |s| else a;
    var hi := if b < 0 then 0 else if b > |s| then |s| else b;
    if lo <= hi then s[lo..hi] else s[hi..lo]
  }

  /** `String.prototype.lastIndexOf(c, from)` for a one-character needle: the last index
      `k <= from` holding `c`, or -1. */
  function LastIndexOf(s: string, c: char, from: int): (k: int)
    ensures -1 <= k < |s|
    ensures k >= 0 ==> k <= from && s[k] == c
    decreases if from < 0 then 0 else from + 1
  {
    if from < 0 || s == [] then -1
    else if from >= |s| then LastIndexOf(s, c, |s| - 1)
    else if s[from] == c then from
    else LastIndexOf(s, c, from - 1)
  }

  /** No `c` lies after the index `LastIndexOf` finds, up to `from`. */
  lemma {:induction false} LastIndexOfIsLast(s: string, c: char, from: int)
    ensures var k := LastIndexOf(s, c, from);
            forall j :: k < j < |s| && j <= from ==> s[j] != c
    decreases if from < 0 then 0 else from + 1
  {
    if from < 0 || s == [] {
    } else if from >= |s| {
      LastIndexOfIsLast(s, c, |s| - 1);
    } else if s[from] != c {
      LastIndexOfIsLast(s, c, from - 1);
    }
  }

  /** End of the run of whitespace starting at `from` (what a greedy `\s*` consumes). */
  function SpaceEnd(s: string, from: nat): (e: nat)
    requires from <= |s|
    ensures from <= e <= |s|
    decreases |s| - from
  {
    if from == |s| || !IsSpace(s[from]) then from else SpaceEnd(s, from + 1)
  }

  /** `SpaceEnd` stops at the first character from `from` on that is not whitespace. */
  lemma {:induction false} SpaceEndFacts(s: string, from: nat)
    requires from <= |s|
    ensures var e := SpaceEnd(s, from);
            && (forall j :: from <= j < e ==> IsSpace(s[j]))
            && (e < |s| ==> !IsSpace(s[e]))
    decreases |s| - from
  {
    if from < |s| && IsSpace(s[from]) {
      SpaceEndFacts(s, from + 1);
    }
  }

  /** `s.indexOf(c, from)` for a one-character needle, when it is found. */
  function FindFrom(s: string, c: char, from: nat): (r: Option<nat>)
    requires from <= |s|
    ensures r.Some? ==> from <= r.value < |s| && s[r.value] == c
    decreases |s| - from
  {
    if from == |s| then None
    else if s[from] == c then Some(from)
    else FindFrom(s, c, from + 1)
  }

  /** No `c` lies between `from` and the index `FindFrom` finds (or the end). */
  lemma {:induction false} FindFromIsFirst(s: string, c: char, from: nat)
    requires from <= |s|
    ensures var r := FindFrom(s, c, from);
            forall j :: from <= j < |s| && (r.None? || j < r.value) ==> s[j] != c
    decreases |s| - from
  {
    if from < |s| && s[from] != c {
      FindFromIsFirst(s, c, from + 1);
    }
  }

  /** `s.indexOf(c)`, with `|s|` standing for "not found". */
  function Find(s: string, c: char): (k: nat)
    ensures k <= |s|
    ensures k < |s| ==> s[k] == c
    ensures forall j :: 0 <= j < k ==> s[j] != c
  {
    if s == [] then 0 else if s[0] == c then 0 else 1 + Find(s[1..], c)
  }

  /** The characters of `s` that are not whitespace, in order. */
  function NonSpace(s: string): string {
    if s == [] then []
    else (if IsSpace(s[0]) then [] else [s[0]]) + NonSpace(s[1..])
  }

  /** `NonSpace` keeps at most the characters it is given, and none of them is whitespace. */
  lemma {:induction false} NonSpaceIsNonSpace(s: string)
    ensures |NonSpace(s)| <= |s|
    ensures forall i :: 0 <= i < |NonSpace(s)| ==> !IsSpace(NonSpace(s)[i])
  {
    if s != [] {
      NonSpaceIsNonSpace(s[1..]);
    }
  }

  lemma {:induction false} NonSpaceAppend(a: string, b: string)
    ensures NonSpace(a + b) == NonSpace(a) + NonSpace(b)
  {
    if a == [] {
      assert a + b == b;
    } else {
      assert (a + b)[0] == a[0];
      assert (a + b)[1..] == a[1..] + b;
      NonSpaceAppend(a[1..], b);
    }
  }

  lemma {:induction false} NonSpaceOfSpace(s: string)
    requires AllSpace(s)
    ensures NonSpace(s) == []
  {
    if s != [] {
      NonSpaceOfSpace(s[1..]);
    }
  }

  lemma NonSpaceSplit(s: string, k: nat)
    requires k <= |s|
    ensures NonSpace(s) == NonSpace(s[..k]) + NonSpace(s[k..])
  {
    assert s == s[..k] + s[k..];
    NonSpaceAppend(s[..k], s[k..]);
  }

  lemma NonSpaceSlices(s: string, a: nat, b: nat, c: nat)
    requires a <= b <= c <= |s|
    ensures NonSpace(s[a..c]) == NonSpace(s[a..b]) + NonSpace(s[b..c])
  {
    assert s[a..c] == s[a..b] + s[b..c];
    NonSpaceAppend(s[a..b], s[b..c]);
  }

  lemma NonSpaceSuffix(s: string, a: nat, b: nat)
    requires a <= b <= |s|
    ensures NonSpace(s[a..]) == NonSpace(s[a..b]) + NonSpace(s[b..])
  {
    assert s[a..] == s[a..b] + s[b..];
    NonSpaceAppend(s[a..b], s[b..]);
  }

  /** Trimming removes only whitespace. */
  lemma TrimKeepsNonSpace(s: string)
    ensures NonSpace(Trim(s)) == NonSpace(s)
  {
    var a := LeadingSpace(s);
    var rest := s[a..];
    var b := TrailingSpace(rest);
    assert Trim(s) == rest[..|rest| - b];
    NonSpaceSplit(s, a);
    NonSpaceOfSpace(s[..a]);
    NonSpaceSplit(rest, |rest| - b);
    NonSpaceOfSpace(rest[|rest| - b..]);
  }
}
