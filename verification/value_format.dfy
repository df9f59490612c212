/**
  The value formatters of the document formatter (src/svgFormatter.ts:54-126):
  the indentation helper, the layout of a path's `d` value one command per line,
  the layout of a polygon's `points` value one `x,y` pair per line, and the
  attribute splitter used when an element's attributes are put on their own lines.
  Regular expressions are modelled as explicit scanners with the leftmost-match
  semantics of the engine.
 */
module ValueFormat {
  import opened Base
  import opened PathTokens

  /** `xs.join(sep)`. */
  function Join(xs: seq<string>, sep: string): string {
    if xs == [] then [] else if |xs| == 1 then xs[0] else xs[0] + sep + Join(xs[1..], sep)
  }

  /** `xs.map(x => prefix + x)`. */
  function Prefixed(prefix: string, xs: seq<string>): (r: seq<string>)
    ensures |r| == |xs| && forall k :: 0 <= k < |xs| ==> r[k] == prefix + xs[k]
  {
    seq(|xs|, k requires 0 <= k < |xs| => prefix + xs[k])
  }

  /** `s.slice(0, -1)`. */
  function DropLast(s: string): string {
    if s == [] then [] else s[..|s| - 1]
  }

  /** The block layout both value formatters produce: a line break, each line behind the
      indent, and a last line holding the indent minus its last character. */
  function Block(lines: seq<string>, indent: string): (r: string)
    ensures |r| >= |DropLast(indent)| + 2 && r[0] == '\n'
    ensures r[|r| - |DropLast(indent)|..] == DropLast(indent) && r[|r| - |DropLast(indent)| - 1] == '\n'
  {
    "\n" + Join(Prefixed(indent, lines), "\n") + "\n" + DropLast(indent)
  }

  function Concat(xs: seq<string>): string {
    if xs == [] then [] else xs[0] + Concat(xs[1..])
  }

  lemma ConcatCons(x: string, xs: seq<string>)
    ensures Concat([x] + xs) == x + Concat(xs)
  {
    assert ([x] + xs)[1..] == xs;
  }

  /** `xs.map(x => x.trim())`. */
  function TrimAll(xs: seq<string>): (r: seq<string>)
    ensures |r| == |xs| && forall k :: 0 <= k < |xs| ==> r[k] == Trim(xs[k])
  {
    seq(|xs|, k requires 0 <= k < |xs| => Trim(xs[k]))
  }

  /** Where the line holding `offset` starts: one past the last line break at or before it. */
  function LineStart(text: string, offset: int): nat {
    LastIndexOf(text, '\n', offset) + 1
  }

  /** The leading whitespace of the text between the line start and `offset`
      (src/svgFormatter.ts:71-74, 89-91). */
  function LineIndent(text: string, offset: int): string {
    var lineText := Substring(text, LineStart(text, offset), offset);
    lineText[..LeadingSpace(lineText)]
  }

  /** `getIndent` (src/svgFormatter.ts:88-93). */
  function GetIndent(text: string, matchIndex: int): (r: string)
    ensures |r| >= 1 && AllSpace(r) && r[|r| - 1] == '\t'
  {
    LineIndent(text, matchIndex) + "\t"
  }

  /** For an offset inside the text that is not itself a line break, the indent is the
      whitespace that opens the offset's line, up to its first other character or the
      offset, followed by one tab. */
  lemma GetIndentIsLineIndent(text: string, offset: nat)
    requires offset <= |text|
    requires offset < |text| ==> text[offset] != '\n'
    ensures var start := LineStart(text, offset);
            var n := |GetIndent(text, offset)| - 1;
            && start + n <= offset
            && (start == 0 || text[start - 1] == '\n')
            && (forall j :: start <= j < offset ==> text[j] != '\n')
            && GetIndent(text, offset) == text[start..start + n] + "\t"
            && (start + n < offset ==> !IsSpace(text[start + n]))
  {
    var start := LineStart(text, offset);
    LastIndexOfIsLast(text, '\n', offset);
    var lineText := Substring(text, start, offset);
    assert lineText == text[start..offset];
    var n := LeadingSpace(lineText);
    assert text[start..start + n] == lineText[..n];
  }

  // ---- formatPathD (src/svgFormatter.ts:95-107) ----

  /** The pieces of `s.split(/(?=[MmLlHhVvCcSsQqTtAaZz])/)` from the piece starting at `p`,
      with `q` the next position to test: a cut goes before every command letter except
      one at the very start. */
  function SplitFrom(s: string, p: nat, q: nat): (r: seq<string>)
    requires p < q <= |s|
    ensures |r| >= 1
    decreases |s| - q
  {
    if q == |s| then [s[p..]]
    else if IsCommandLetter(s[q]) then [s[p..q]] + SplitFrom(s, q, q + 1)
    else SplitFrom(s, p, q + 1)
  }

  function SplitBeforeCommands(s: string): seq<string> {
    if s == [] then [s] else SplitFrom(s, 0, 1)
  }

  /** `.map(s => s.trim()).filter(Boolean)`. */
  function TrimmedNonEmpty(xs: seq<string>): (r: seq<string>)
    ensures |r| <= |xs|
    ensures [] !in r
  {
    if xs == [] then []
    else (if Trim(xs[0]) == [] then [] else [Trim(xs[0])]) + TrimmedNonEmpty(xs[1..])
  }

  /** The command chunks of a trimmed `d` value. */
  function Chunks(trimmed: string): (r: seq<string>)
    ensures trimmed == [] ==> r == []
    ensures [] !in r
  {
    TrimmedNonEmpty(SplitBeforeCommands(trimmed))
  }

  function FormatPathD(d: string, indent: string): (r: string)
    ensures AllSpace(d) ==> r == d
    ensures !AllSpace(d) && |Chunks(Trim(d))| <= 1 ==> r == d
  {
    var trimmed := Trim(d);
    if trimmed == [] then d
    else
      var segments := Chunks(trimmed);
      if |segments| <= 1 then d else Block(segments, indent)
  }

  /** Non-empty, with no whitespace at either end. */
  predicate IsTrimmed(c: string) {
    c != [] && !IsSpace(c[0]) && !IsSpace(c[|c| - 1])
  }

  /** No command letter after the first character. */
  predicate OneCommand(c: string) {
    forall j :: 0 < j < |c| ==> !IsCommandLetter(c[j])
  }

  predicate StartsWithCommand(c: string) {
    |c| >= 1 && IsCommandLetter(c[0])
  }

  /** The pieces of the split put back together give the string. */
  lemma {:induction false} SplitFromConcat(s: string, p: nat, q: nat)
    requires p < q <= |s|
    ensures Concat(SplitFrom(s, p, q)) == s[p..]
    decreases |s| - q
  {
    if q == |s| {
      SplitEndConcat(s, p);
    } else if IsCommandLetter(s[q]) {
      SplitFromConcat(s, q, q + 1);
      SplitCutConcat(s, p, q);
    } else {
      SplitFromConcat(s, p, q + 1);
    }
  }

  lemma SplitEndConcat(s: string, p: nat)
    requires p < |s|
    ensures Concat(SplitFrom(s, p, |s|)) == s[p..]
  {
    ConcatCons(s[p..], []);
    assert s[p..] + [] == s[p..];
  }

  lemma SplitCutConcat(s: string, p: nat, q: nat)
    requires p < q < |s| && IsCommandLetter(s[q])
    requires Concat(SplitFrom(s, q, q + 1)) == s[q..]
    ensures Concat(SplitFrom(s, p, q)) == s[p..]
  {
    ConcatCons(s[p..q], SplitFrom(s, q, q + 1));
    assert s[p..] == s[p..q] + s[q..];
  }

  /** Every piece after the first starts with a command letter, and no piece holds a
      command letter anywhere but at its start. */
  lemma {:induction false} SplitFromShape(s: string, p: nat, q: nat)
    requires p < q <= |s|
    requires forall j :: p < j < q ==> !IsCommandLetter(s[j])
    ensures var r := SplitFrom(s, p, q);
            && |r[0]| >= 1 && r[0][0] == s[p]
            && (forall k :: 0 < k < |r| ==> StartsWithCommand(r[k]))
            && (forall k :: 0 <= k < |r| ==> OneCommand(r[k]))
    decreases |s| - q
  {
    var r := SplitFrom(s, p, q);
    if q == |s| {
      assert r == [s[p..]];
    } else if IsCommandLetter(s[q]) {
      SplitFromShape(s, q, q + 1);
      assert r == [s[p..q]] + SplitFrom(s, q, q + 1);
      assert OneCommand(s[p..q]);
    } else {
      SplitFromShape(s, p, q + 1);
    }
  }

  /** Trimming takes a contiguous part of the string, from its start when that is not a space. */
  lemma TrimIsSlice(s: string) returns (a: nat, b: nat)
    ensures a <= b <= |s| && Trim(s) == s[a..b]
    ensures |s| >= 1 && !IsSpace(s[0]) ==> a == 0
  {
    a := LeadingSpace(s);
    var rest := s[a..];
    b := a + |rest| - TrailingSpace(rest);
    assert rest[..|rest| - TrailingSpace(rest)] == s[a..b];
  }

  /** Trimming a piece that starts with a non-space keeps its first character and keeps
      the piece free of later command letters. */
  lemma TrimPiece(s: string)
    requires |s| >= 1 && !IsSpace(s[0]) && OneCommand(s)
    ensures IsTrimmed(Trim(s)) && Trim(s)[0] == s[0] && OneCommand(Trim(s))
  {
    var a, b := TrimIsSlice(s);
    assert !AllSpace(s);
  }

  lemma {:induction false} TrimmedNonEmptyKeepsNonSpace(xs: seq<string>)
    ensures NonSpace(Concat(TrimmedNonEmpty(xs))) == NonSpace(Concat(xs))
  {
    if xs != [] {
      TrimmedNonEmptyKeepsNonSpace(xs[1..]);
      TrimKeepsNonSpace(xs[0]);
      var t := Trim(xs[0]);
      var rest := TrimmedNonEmpty(xs[1..]);
      NonSpaceAppend(xs[0], Concat(xs[1..]));
      if t == [] {
        assert TrimmedNonEmpty(xs) == rest;
      } else {
        var r := TrimmedNonEmpty(xs);
        assert r == [t] + rest;
        assert r[0] == t && r[1..] == rest;
        assert Concat(r) == t + Concat(rest);
        NonSpaceAppend(t, Concat(rest));
      }
    }
  }

  /** When no piece is blank the filter keeps every trimmed piece. */
  lemma {:induction false} NothingFiltered(xs: seq<string>)
    requires forall k :: 0 <= k < |xs| ==> !AllSpace(xs[k])
    ensures TrimmedNonEmpty(xs) == TrimAll(xs)
  {
    if xs != [] {
      NothingFiltered(xs[1..]);
      assert Trim(xs[0]) != [];
      TrimAllCons(xs);
    }
  }

  lemma TrimAllCons(xs: seq<string>)
    requires xs != []
    ensures TrimAll(xs) == [Trim(xs[0])] + TrimAll(xs[1..])
  {
    assert forall k :: 0 < k < |xs| ==> TrimAll(xs)[k] == TrimAll(xs[1..])[k - 1];
  }

  /** The chunks of a `d` value that is not blank are trimmed; every chunk after the
      first starts with a command letter, the first does exactly when the value does,
      and no chunk holds a command letter after its first character. */
  lemma ChunksShape(d: string)
    requires !AllSpace(d)
    ensures var c := Chunks(Trim(d));
            && |c| >= 1
            && (forall k :: 0 <= k < |c| ==> IsTrimmed(c[k]) && OneCommand(c[k]))
            && (forall k :: 0 < k < |c| ==> StartsWithCommand(c[k]))
            && (StartsWithCommand(c[0]) <==> IsCommandLetter(Trim(d)[0]))
  {
    var trimmed := Trim(d);
    var pieces := SplitFrom(trimmed, 0, 1);
    SplitFromShape(trimmed, 0, 1);
    TrimPiece(pieces[0]);
    var tail := pieces[1..];
    TrimmedPieces(tail);
    NothingFiltered(tail);
    assert Chunks(trimmed) == [Trim(pieces[0])] + TrimAll(tail);
    ConsChunks(Trim(pieces[0]), TrimAll(tail));
  }

  /** A trimmed first chunk followed by trimmed chunks that each open with a command. */
  lemma ConsChunks(first: string, rest: seq<string>)
    requires IsTrimmed(first) && OneCommand(first)
    requires forall k :: 0 <= k < |rest| ==> IsTrimmed(rest[k]) && OneCommand(rest[k]) && StartsWithCommand(rest[k])
    ensures ([first] + rest)[0] == first
    ensures forall k :: 0 <= k < |[first] + rest| ==> IsTrimmed(([first] + rest)[k]) && OneCommand(([first] + rest)[k])
    ensures forall k :: 0 < k < |[first] + rest| ==> StartsWithCommand(([first] + rest)[k])
  {
    assert forall k :: 0 < k < |[first] + rest| ==> ([first] + rest)[k] == rest[k - 1];
  }

  /** Pieces that each start with a command letter and hold no other stay so when trimmed. */
  lemma TrimmedPieces(xs: seq<string>)
    requires forall k :: 0 <= k < |xs| ==> StartsWithCommand(xs[k]) && OneCommand(xs[k])
    ensures forall k :: 0 <= k < |xs| ==> !AllSpace(xs[k])
    ensures forall k :: 0 <= k < |xs| ==>
              IsTrimmed(TrimAll(xs)[k]) && OneCommand(TrimAll(xs)[k]) && StartsWithCommand(TrimAll(xs)[k])
  {
    forall k | 0 <= k < |xs|
      ensures !AllSpace(xs[k])
      ensures IsTrimmed(Trim(xs[k])) && OneCommand(Trim(xs[k])) && StartsWithCommand(Trim(xs[k]))
    {
      TrimPiece(xs[k]);
    }
  }

  /** Together the chunks hold the non-whitespace characters of the value, in order. */
  lemma ChunksKeepNonSpace(d: string)
    requires !AllSpace(d)
    ensures NonSpace(Concat(Chunks(Trim(d)))) == NonSpace(d)
  {
    var trimmed := Trim(d);
    SplitFromConcat(trimmed, 0, 1);
    assert trimmed[0..] == trimmed;
    TrimmedNonEmptyKeepsNonSpace(SplitFrom(trimmed, 0, 1));
    TrimKeepsNonSpace(d);
  }

  lemma {:induction false} JoinKeepsNonSpace(xs: seq<string>, sep: string)
    requires AllSpace(sep)
    ensures NonSpace(Join(xs, sep)) == NonSpace(Concat(xs))
  {
    if |xs| == 1 {
      assert xs[1..] == [];
      assert Concat(xs) == xs[0] + Concat([]) == xs[0];
    } else if |xs| > 1 {
      JoinKeepsNonSpace(xs[1..], sep);
      NonSpaceAppend(xs[0] + sep, Join(xs[1..], sep));
      NonSpaceAppend(xs[0], sep);
      NonSpaceOfSpace(sep);
      NonSpaceAppend(xs[0], Concat(xs[1..]));
    }
  }

  lemma {:induction false} PrefixedKeepsNonSpace(prefix: string, xs: seq<string>)
    requires AllSpace(prefix)
    ensures NonSpace(Concat(Prefixed(prefix, xs))) == NonSpace(Concat(xs))
  {
    NonSpaceOfSpace(prefix);
    if xs != [] {
      PrefixedKeepsNonSpace(prefix, xs[1..]);
      assert Prefixed(prefix, xs)[1..] == Prefixed(prefix, xs[1..]);
      NonSpaceAppend(prefix + xs[0], Concat(Prefixed(prefix, xs[1..])));
      NonSpaceAppend(prefix, xs[0]);
      NonSpaceAppend(xs[0], Concat(xs[1..]));
    }
  }

  /** With whitespace lines around them, the laid-out lines keep exactly the non-whitespace
      characters of the lines, in order. */
  lemma BlockKeepsNonSpace(lines: seq<string>, indent: string)
    requires AllSpace(indent)
    ensures NonSpace(Block(lines, indent)) == NonSpace(Concat(lines))
  {
    var body := Join(Prefixed(indent, lines), "\n");
    JoinKeepsNonSpace(Prefixed(indent, lines), "\n");
    PrefixedKeepsNonSpace(indent, lines);
    assert AllSpace(DropLast(indent));
    SurroundKeepsNonSpace(body, DropLast(indent));
  }

  lemma SurroundKeepsNonSpace(body: string, last: string)
    requires AllSpace(last)
    ensures NonSpace("\n" + body + "\n" + last) == NonSpace(body)
  {
    NonSpaceOfSpace(last);
    NonSpaceOfSpace("\n");
    NonSpaceAppend("\n" + body + "\n", last);
    NonSpaceAppend("\n" + body, "\n");
    NonSpaceAppend("\n", body);
  }

  /** Laying out a `d` value with a whitespace indent changes only whitespace. */
  lemma FormatPathDKeepsNonSpace(d: string, indent: string)
    requires AllSpace(indent)
    ensures NonSpace(FormatPathD(d, indent)) == NonSpace(d)
  {
    if !AllSpace(d) && |Chunks(Trim(d))| > 1 {
      ChunksKeepNonSpace(d);
      BlockKeepsNonSpace(Chunks(Trim(d)), indent);
    }
  }

  // ---- formatPoints (src/svgFormatter.ts:109-126) ----

  /** No match of the number pattern starts in `[a, b)`. */
  predicate NoNumberIn(s: string, a: nat, b: nat)
    requires a <= b <= |s|
  {
    forall j :: a <= j < b ==> NumberAt(s, j).None?
  }

  /** The spans `[start, end)` of the successive matches of the global number pattern
      `/-?\d*\.?\d+(?:e[+-]?\d+)?/g` from `from` on: each the match at its start, in order. */
  function NumberSpans(s: string, from: nat): (r: seq<(nat, nat)>)
    requires from <= |s|
    ensures forall k :: 0 <= k < |r| ==> from <= r[k].0 < r[k].1 <= |s| && NumberAt(s, r[k].0) == Some(r[k].1)
    ensures forall k :: 0 < k < |r| ==> r[k - 1].1 <= r[k].0
    decreases |s| - from
  {
    if from == |s| then []
    else match NumberAt(s, from)
      case Some(e) =>
        SpansCons(s, from, e, NumberSpans(s, e));
        [(from, e)] + NumberSpans(s, e)
      case None =>
        NumberSpans(s, from + 1)
  }

  /** A match at `from` followed by later matches, in order, are matches in order. */
  lemma SpansCons(s: string, from: nat, e: nat, rest: seq<(nat, nat)>)
    requires from < e <= |s| && NumberAt(s, from) == Some(e)
    requires forall k :: 0 <= k < |rest| ==> e <= rest[k].0 < rest[k].1 <= |s| && NumberAt(s, rest[k].0) == Some(rest[k].1)
    requires forall k :: 0 < k < |rest| ==> rest[k - 1].1 <= rest[k].0
    ensures forall k :: 0 <= k < |[(from, e)] + rest| ==>
              from <= ([(from, e)] + rest)[k].0 < ([(from, e)] + rest)[k].1 <= |s|
              && NumberAt(s, ([(from, e)] + rest)[k].0) == Some(([(from, e)] + rest)[k].1)
    ensures forall k :: 0 < k < |[(from, e)] + rest| ==> ([(from, e)] + rest)[k - 1].1 <= ([(from, e)] + rest)[k].0
  {
    assert forall k :: 0 < k < |[(from, e)] + rest| ==> ([(from, e)] + rest)[k] == rest[k - 1];
  }

  /** Before each span, counted from `from`, and after the last one no match of the
      number pattern starts. */
  predicate NoNumberBetween(s: string, from: nat, r: seq<(nat, nat)>)
    requires from <= |s|
    decreases |r|
  {
    if r == [] then NoNumberIn(s, from, |s|)
    else from <= r[0].0 <= r[0].1 <= |s| && NoNumberIn(s, from, r[0].0) && NoNumberBetween(s, r[0].1, r[1..])
  }

  /** No match is skipped: no match of the pattern starts before the first span, between
      two spans, or after the last one. */
  lemma {:induction false} NumberSpansLeaveNoMatch(s: string, from: nat)
    requires from <= |s|
    ensures NoNumberBetween(s, from, NumberSpans(s, from))
    decreases |s| - from
  {
    if from < |s| {
      NumberSpansLeaveNoMatch(s, SpanNext(s, from));
      NoNumberBetweenStep(s, from);
    } else {
      assert NumberSpans(s, from) == [];
    }
  }

  /** Where `NumberSpans` goes on from `from`: after the match there, or one further. */
  function SpanNext(s: string, from: nat): (r: nat)
    requires from < |s|
    ensures from < r <= |s|
  {
    match NumberAt(s, from)
    case Some(e) => e
    case None => from + 1
  }

  /** One step of `NumberSpans` leaves no match out when the rest leaves none out. */
  lemma NoNumberBetweenStep(s: string, from: nat)
    requires from < |s| && NoNumberBetween(s, SpanNext(s, from), NumberSpans(s, SpanNext(s, from)))
    ensures NoNumberBetween(s, from, NumberSpans(s, from))
  {
    match NumberAt(s, from)
    case Some(e) => NoNumberBetweenMatch(s, from, e);
    case None => NoNumberBetweenExtend(s, from);
  }

  /** A match at `from` followed by spans that leave no match out. */
  lemma NoNumberBetweenMatch(s: string, from: nat, e: nat)
    requires from < |s| && NumberAt(s, from) == Some(e) && NoNumberBetween(s, e, NumberSpans(s, e))
    ensures NoNumberBetween(s, from, NumberSpans(s, from))
  {
    var r := NumberSpans(s, from);
    assert r == [(from, e)] + NumberSpans(s, e);
    assert r[1..] == NumberSpans(s, e);
  }

  /** A position where no match starts, before spans that leave no match out. */
  lemma NoNumberBetweenExtend(s: string, from: nat)
    requires from < |s| && NumberAt(s, from).None? && NoNumberBetween(s, from + 1, NumberSpans(s, from + 1))
    ensures NoNumberBetween(s, from, NumberSpans(s, from))
  {
    var r := NumberSpans(s, from + 1);
    assert NumberSpans(s, from) == r;
    var b := if r == [] then |s| else r[0].0;
    NoNumberInExtend(s, from, b);
  }

  lemma NoNumberInExtend(s: string, from: nat, b: nat)
    requires from < b <= |s| && NumberAt(s, from).None? && NoNumberIn(s, from + 1, b)
    ensures NoNumberIn(s, from, b)
  {
  }

  /** The texts of the number matches (`trimmed.match(...)`, with `[]` for no match). */
  function Numbers(s: string): seq<string> {
    Texts(s, NumberSpans(s, 0))
  }

  /** The numbers are the texts of the matches, in order. */
  lemma {:induction false} TextsOfSpans(s: string, spans: seq<(nat, nat)>)
    requires forall k :: 0 <= k < |spans| ==> spans[k].0 <= spans[k].1 <= |s|
    ensures forall k :: 0 <= k < |spans| ==> Texts(s, spans)[k] == s[spans[k].0..spans[k].1]
  {
    if spans != [] {
      TextsOfSpans(s, spans[1..]);
      var r := Texts(s, spans);
      assert forall k :: 1 <= k < |spans| ==> r[k] == Texts(s, spans[1..])[k - 1] && spans[k] == spans[1..][k - 1];
    }
  }

  /** The text of each span. */
  function Texts(s: string, spans: seq<(nat, nat)>): (r: seq<string>)
    requires forall k :: 0 <= k < |spans| ==> spans[k].0 <= spans[k].1 <= |s|
    ensures |r| == |spans|
  {
    if spans == [] then [] else [s[spans[0].0..spans[0].1]] + Texts(s, spans[1..])
  }

  /** `${nums[i]},${nums[i + 1]}` for each whole pair, in order; an unpaired last number is dropped. */
  function Pairs(nums: seq<string>): (r: seq<string>)
    ensures |r| == |nums| / 2
    ensures forall j :: 0 <= j < |r| ==> r[j] == nums[2 * j] + "," + nums[2 * j + 1]
  {
    seq(|nums| / 2, j requires 0 <= j < |nums| / 2 => nums[2 * j] + "," + nums[2 * j + 1])
  }

  /** What `formatPoints` returns. */
  function FormatPointsValue(points: string, indent: string): (r: string)
    ensures AllSpace(points) ==> r == points
    ensures |Numbers(Trim(points))| < 4 ==> r == points
  {
    var trimmed := Trim(points);
    if trimmed == [] then points
    else
      var nums := Numbers(trimmed);
      if |nums| < 4 then points else Block(Pairs(nums), indent)
  }

  /** `formatPoints`, with its loop over the number pairs. */
  method FormatPoints(points: string, indent: string) returns (r: string)
    ensures r == FormatPointsValue(points, indent)
  {
    var trimmed := Trim(points);
    if trimmed == [] {
      return points;
    }
    var nums := Numbers(trimmed);
    if |nums| < 4 {
      return points;
    }
    var pairs: seq<string> := [];
    var i := 0;
    while i + 1 < |nums|
      invariant i == 2 * |pairs| <= |nums|
      invariant forall j :: 0 <= j < |pairs| ==> pairs[j] == nums[2 * j] + "," + nums[2 * j + 1]
    {
      pairs := pairs + [nums[i] + "," + nums[i + 1]];
      i := i + 2;
    }
    assert pairs == Pairs(nums);
    r := Block(pairs, indent);
  }

  // ---- parseAttributes (src/svgFormatter.ts:54-65) ----

  /** `[\w:.-]`. */
  predicate IsAttrNameChar(c: char) {
    IsWordChar(c) || c == ':' || c == '.' || c == '-'
  }

  /** `[^\s"'=<>\x60]`: a character of an unquoted attribute value. */
  predicate IsBareValueChar(c: char) {
    !IsSpace(c) && c != '"' && c != '\'' && c != '=' && c != '<' && c != '>' && c != '`'
  }

  /** End of the run of characters satisfying `p` from `from` on. */
  function RunEnd(s: string, from: nat, p: char -> bool): (e: nat)
    requires from <= |s|
    ensures from <= e <= |s|
    decreases |s| - from
  {
    if from == |s| || !p(s[from]) then from else RunEnd(s, from + 1, p)
  }

  /** The run ends at `RunEnd`: every character before it satisfies `p`, the one at it does not. */
  lemma {:induction false} RunEndFacts(s: string, from: nat, p: char -> bool)
    requires from <= |s|
    ensures var e := RunEnd(s, from, p);
            && (forall j :: from <= j < e ==> p(s[j]))
            && (e < |s| ==> !p(s[e]))
    decreases |s| - from
  {
    if from < |s| && p(s[from]) {
      RunEndFacts(s, from + 1, p);
    }
  }

  /** End of the quoted value opened by the quote at `v`, when the quote is closed. */
  function QuotedEnd(s: string, v: nat, quote: char): (r: Option<nat>)
    requires v < |s|
    ensures r.Some? ==> v + 1 < r.value <= |s| && s[r.value - 1] == quote
  {
    if s[v] == quote then
      match FindFrom(s, quote, v + 1)
      case Some(c) => Some(c + 1)
      case None => None
    else None
  }

  /** End of the attribute pattern `[\w:.-]+\s*(?:=\s*(?:"[^"]*"|'[^']*'|[^\s"'=<>\x60]*))?`
      matched at `i`, which holds a name character. */
  function AttributeEnd(s: string, i: nat): (e: nat)
    requires i < |s| && IsAttrNameChar(s[i])
    ensures i < e <= |s|
  {
    var name := RunEnd(s, i, IsAttrNameChar);
    var afterName := SpaceEnd(s, name);
    if afterName < |s| && s[afterName] == '=' then
      var v := SpaceEnd(s, afterName + 1);
      if v == |s| then v
      else if QuotedEnd(s, v, '"').Some? then QuotedEnd(s, v, '"').value
      else if QuotedEnd(s, v, '\'').Some? then QuotedEnd(s, v, '\'').value
      else RunEnd(s, v, IsBareValueChar)
    else afterName
  }

  /** The leftmost match of the attribute pattern at or after `from`: the pattern matches
      exactly where a name character is, so it starts at the first one. */
  function NextAttribute(s: string, from: nat): (r: Option<(nat, nat)>)
    requires from <= |s|
    ensures r.Some? ==> from <= r.value.0 < r.value.1 <= |s| && IsAttrNameChar(s[r.value.0])
    decreases |s| - from
  {
    if from == |s| then None
    else if IsAttrNameChar(s[from]) then Some((from, AttributeEnd(s, from)))
    else NextAttribute(s, from + 1)
  }

  /** `NextAttribute` finds the first name character: none lies before the match, and
      none at all when there is no match. */
  lemma {:induction false} NextAttributeIsFirst(s: string, from: nat)
    requires from <= |s|
    ensures var r := NextAttribute(s, from);
            && (r.Some? ==> forall j :: from <= j < r.value.0 ==> !IsAttrNameChar(s[j]))
            && (r.None? ==> forall j :: from <= j < |s| ==> !IsAttrNameChar(s[j]))
    decreases |s| - from
  {
    if from < |s| && !IsAttrNameChar(s[from]) {
      NextAttributeIsFirst(s, from + 1);
    }
  }

  /** The attributes `parseAttributes` collects from `from` on: each match, trimmed, when
      not empty. */
  function Attributes(s: string, from: nat): seq<string>
    requires from <= |s|
    decreases |s| - from
  {
    match NextAttribute(s, from)
    case None => []
    case Some((a, b)) =>
      var attr := Trim(s[a..b]);
      (if attr != [] then [attr] else []) + Attributes(s, b)
  }

  /** `parseAttributes`, with its `exec` loop. */
  method ParseAttributes(attrsStr: string) returns (attrs: seq<string>)
    ensures attrs == Attributes(attrsStr, 0)
  {
    attrs := [];
    var lastIndex := 0;
    while true
      invariant lastIndex <= |attrsStr|
      invariant attrs + Attributes(attrsStr, lastIndex) == Attributes(attrsStr, 0)
      decreases |attrsStr| - lastIndex
    {
      var m := NextAttribute(attrsStr, lastIndex);
      if m.None? {
        assert Attributes(attrsStr, lastIndex) == [];
        assert attrs + [] == attrs;
        return;
      }
      var a, b := m.value.0, m.value.1;
      var attr := Trim(attrsStr[a..b]);
      CollectStep(attrsStr, lastIndex, a, b, attrs, attr);
      if attr != [] {
        attrs := attrs + [attr];
      }
      lastIndex := b;
    }
  }

  /** One match of the `exec` loop: its trimmed text, when not empty, is collected next. */
  lemma CollectStep(s: string, from: nat, a: nat, b: nat, attrs: seq<string>, attr: string)
    requires from <= |s| && NextAttribute(s, from) == Some((a, b))
    requires a <= b <= |s| && attr == Trim(s[a..b])
    ensures b <= |s|
    ensures attrs + Attributes(s, from) == (if attr != [] then attrs + [attr] else attrs) + Attributes(s, b)
  {
    var rest := Attributes(s, b);
    assert Attributes(s, from) == (if attr != [] then [attr] else []) + rest;
    if attr != [] {
      assert attrs + ([attr] + rest) == (attrs + [attr]) + rest;
    } else {
      assert [] + rest == rest;
    }
  }

  /** No name character in `[a, b)`. */
  predicate NoNameIn(s: string, a: nat, b: nat)
    requires a <= b <= |s|
  {
    forall j :: a <= j < b ==> !IsAttrNameChar(s[j])
  }

  /** The spans of the successive attribute matches from `from` on: in order, each
      starting at a name character. */
  function AttributeSpans(s: string, from: nat): (r: seq<(nat, nat)>)
    requires from <= |s|
    ensures forall k :: 0 <= k < |r| ==> from <= r[k].0 < r[k].1 <= |s| && IsAttrNameChar(s[r[k].0])
    ensures forall k :: 0 < k < |r| ==> r[k - 1].1 <= r[k].0
    decreases |s| - from
  {
    match NextAttribute(s, from)
    case None => []
    case Some((a, b)) =>
      var rest := AttributeSpans(s, b);
      var r := [(a, b)] + rest;
      assert forall k :: 0 < k < |r| ==> r[k] == rest[k - 1];
      r
  }

  /** Before each span, counted from `from`, and after the last one there is no name
      character. */
  predicate NoNameBetween(s: string, from: nat, r: seq<(nat, nat)>)
    requires from <= |s|
    decreases |r|
  {
    if r == [] then NoNameIn(s, from, |s|)
    else from <= r[0].0 <= r[0].1 <= |s| && NoNameIn(s, from, r[0].0) && NoNameBetween(s, r[0].1, r[1..])
  }

  /** No attribute is skipped: there is no name character before the first match,
      between two matches, or after the last one. */
  lemma {:induction false} AttributeSpansLeaveNoName(s: string, from: nat)
    requires from <= |s|
    ensures NoNameBetween(s, from, AttributeSpans(s, from))
    decreases |s| - from
  {
    var n := NextAttribute(s, from);
    NextAttributeIsFirst(s, from);
    if n.Some? {
      AttributeSpansLeaveNoName(s, n.value.1);
      assert AttributeSpans(s, from) == [n.value] + AttributeSpans(s, n.value.1);
    }
  }

  /** Every match gives one attribute: the match, trimmed. */
  lemma {:induction false} AttributesOfSpans(s: string, from: nat)
    requires from <= |s|
    ensures Attributes(s, from) == TrimAll(Texts(s, AttributeSpans(s, from)))
    decreases |s| - from
  {
    var n := NextAttribute(s, from);
    if n.Some? {
      var a := n.value.0;
      var b := n.value.1;
      AttributesOfSpans(s, b);
      AttributesStep(s, from, a, b);
      TrimmedTextsCons(s, a, b, Attributes(s, b), AttributeSpans(s, b));
    }
  }

  lemma TrimmedTextsCons(s: string, a: nat, b: nat, attrs: seq<string>, spans: seq<(nat, nat)>)
    requires a <= b <= |s|
    requires forall k :: 0 <= k < |spans| ==> spans[k].0 <= spans[k].1 <= |s|
    requires attrs == TrimAll(Texts(s, spans))
    ensures [Trim(s[a..b])] + attrs == TrimAll(Texts(s, [(a, b)] + spans))
  {
    TextsCons(s, a, b, spans);
    assert TrimAll([s[a..b]] + Texts(s, spans)) == [Trim(s[a..b])] + TrimAll(Texts(s, spans));
  }

  /** One step of the `exec` loop: the match found gives the next attribute and span. */
  lemma AttributesStep(s: string, from: nat, a: nat, b: nat)
    requires from <= |s| && NextAttribute(s, from) == Some((a, b))
    ensures Attributes(s, from) == [Trim(s[a..b])] + Attributes(s, b)
    ensures AttributeSpans(s, from) == [(a, b)] + AttributeSpans(s, b)
  {
    TrimMatch(s, a, b);
  }

  lemma TextsCons(s: string, a: nat, b: nat, rest: seq<(nat, nat)>)
    requires a <= b <= |s|
    requires forall k :: 0 <= k < |rest| ==> rest[k].0 <= rest[k].1 <= |s|
    ensures Texts(s, [(a, b)] + rest) == [s[a..b]] + Texts(s, rest)
  {
    assert ([(a, b)] + rest)[1..] == rest;
  }

  /** The attributes `parseAttributes` returns are the matches of the attribute pattern
      in source order, none dropped: each is non-empty and trimmed, starts with a name
      character, and between consecutive matches there is no name character. */
  lemma ParseAttributesShape(s: string)
    ensures var attrs := Attributes(s, 0);
            var spans := AttributeSpans(s, 0);
            && |attrs| == |spans|
            && NoNameBetween(s, 0, spans)
            && forall k :: 0 <= k < |attrs| ==>
                 && attrs[k] == Trim(s[spans[k].0..spans[k].1])
                 && IsTrimmed(attrs[k]) && IsAttrNameChar(attrs[k][0])
  {
    AttributesOfSpans(s, 0);
    AttributeSpansLeaveNoName(s, 0);
    TrimmedMatches(s, AttributeSpans(s, 0));
  }

  /** Matches that each start with a name character trim to non-empty attributes that
      start with it. */
  lemma TrimmedMatches(s: string, spans: seq<(nat, nat)>)
    requires forall k :: 0 <= k < |spans| ==> spans[k].0 < spans[k].1 <= |s| && IsAttrNameChar(s[spans[k].0])
    ensures |TrimAll(Texts(s, spans))| == |spans|
    ensures forall k :: 0 <= k < |spans| ==>
              && TrimAll(Texts(s, spans))[k] == Trim(s[spans[k].0..spans[k].1])
              && IsTrimmed(TrimAll(Texts(s, spans))[k]) && IsAttrNameChar(TrimAll(Texts(s, spans))[k][0])
  {
    TextsOfSpans(s, spans);
    forall k | 0 <= k < |spans|
      ensures IsTrimmed(Trim(s[spans[k].0..spans[k].1])) && IsAttrNameChar(Trim(s[spans[k].0..spans[k].1])[0])
    {
      TrimMatch(s, spans[k].0, spans[k].1);
    }
  }

  /** A match trims to a non-empty attribute that starts with the match's name character. */
  lemma TrimMatch(s: string, a: nat, b: nat)
    requires a < b <= |s| && IsAttrNameChar(s[a])
    ensures IsTrimmed(Trim(s[a..b])) && Trim(s[a..b])[0] == s[a]
  {
    var m := s[a..b];
    assert m[0] == s[a];
    assert !AllSpace(m);
    var i, j := TrimIsSlice(m);
  }
}
