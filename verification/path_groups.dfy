/**
  Which segments `parsePathSegmentAtCursor` builds from which tokens
  (src/svgPreviewPanel.ts:394-433), stated without the builder's variables.

  Each command letter owns the number tokens that follow it up to the next
  command letter. A letter that takes no numbers (`Z`, `z`) is one segment
  spanning the letter, and the numbers it owns are read by no command. Any other
  letter cuts its numbers into groups of `ArgCount` numbers, and each complete
  group is one segment: the first starts at the letter, each later one where
  the previous group's last number ended, and a group after a move is read as a
  line of the same relativity. The numbers of an incomplete last group and the
  numbers before the first command letter give no segment.

  `Groups` is that reading; `SegmentsFollowGroups` proves that the builder's
  segments are exactly the groups, in order. Where each segment starts and ends
  in the plane is then fixed by `PathParser.Chained`.
 */
module PathGroups {
  import opened Base
  import opened PathTokens
  import opened PathParser

  /** What a segment records about the text: its command, whether it is relative, its
      numbers and its span. */
  datatype Outline = Outline(command: char, isRelative: bool, args: seq<real>, startOffset: nat, endOffset: nat)

  function OutlineOf(s: ParsedSegment): Outline {
    Outline(s.command, s.isRelative, s.args, s.startOffset, s.endOffset)
  }

  function Outlines(segs: seq<ParsedSegment>): seq<Outline> {
    seq(|segs|, k requires 0 <= k < |segs| => OutlineOf(segs[k]))
  }

  /** `Number(tok.value)` of a number token. */
  function Value(t: PathToken): real {
    if t.Num? then NumeralValue(t.text) else 0.0
  }

  /** The values of the number tokens `ops`, in order. */
  function Values(ops: seq<PathToken>): seq<real> {
    seq(|ops|, k requires 0 <= k < |ops| => Value(ops[k]))
  }

  /** The first command token at or after `i` (the end when there is none). */
  function NextCommand(toks: seq<PathToken>, i: nat): (j: nat)
    requires i <= |toks|
    ensures i <= j <= |toks|
    ensures forall k :: i <= k < j ==> toks[k].Num?
    ensures j < |toks| ==> toks[j].Cmd?
    decreases |toks| - i
  {
    if i == |toks| || toks[i].Cmd? then i else NextCommand(toks, i + 1)
  }

  /** The letter the groups after a complete group are read with: a move continues as
      lines of the same relativity, every other letter as itself. */
  function Continue(letter: char): char {
    if ToUpper(letter) == 'M' then (if IsRelativeLetter(letter) then 'l' else 'L') else letter
  }

  /** Lines after a move go on as lines. */
  lemma ContinueTwice(letter: char)
    ensures Continue(Continue(letter)) == Continue(letter)
  {
    if ToUpper(letter) == 'M' {
      assert ToUpper('l') == 'L';
    }
  }

  /** The complete groups of `n` numbers among `ops` read with `letter`, the first
      starting at `start` and each later one where the previous one ended; numbers
      left over are dropped. */
  function Chunk(letter: char, ops: seq<PathToken>, n: nat, start: nat): seq<Outline>
    requires n > 0
    decreases |ops|
  {
    if |ops| < n then []
    else [Group(letter, ops, n, 0, start)] + Chunk(Continue(letter), ops[n..], n, ops[n - 1].end)
  }

  /** The segment of the `n` numbers `ops[m..m + n]` read with `letter`, starting at `from`
      and ending with its last number. */
  function Group(letter: char, ops: seq<PathToken>, n: nat, m: nat, from: nat): Outline
    requires n > 0 && m + n <= |ops|
  {
    Outline(ToUpper(letter), IsRelativeLetter(letter), Values(ops[m..m + n]), from, ops[m + n - 1].end)
  }

  /** The segments of the command token `c` and the numbers `ops` it owns. */
  function CommandGroups(c: PathToken, ops: seq<PathToken>): seq<Outline>
    requires c.Cmd?
  {
    var n := ArgCount(c.letter);
    if n == 0 then [Outline(ToUpper(c.letter), IsRelativeLetter(c.letter), [], c.start, c.end)]
    else Chunk(c.letter, ops, n, c.start)
  }

  /** The segments of `toks[i..]`: a number owned by no command is skipped, and each
      command token owns the numbers up to the next command token. */
  function GroupsFrom(toks: seq<PathToken>, i: nat): seq<Outline>
    requires i <= |toks|
    decreases |toks| - i
  {
    if i == |toks| then []
    else if toks[i].Num? then GroupsFrom(toks, i + 1)
    else
      var j := NextCommand(toks, i + 1);
      CommandGroups(toks[i], toks[i + 1..j]) + GroupsFrom(toks, j)
  }

  function Groups(toks: seq<PathToken>): seq<Outline> {
    GroupsFrom(toks, 0)
  }

  // ---------------------------------------------------------------------------
  // What the reading says.

  /** The `k`-th complete group of a letter's numbers: read with the letter itself when it
      is the first and with `Continue(letter)` after that, it holds numbers
      `k * n .. k * n + n - 1`, starts at the letter or where the previous group
      ended, and ends with its last number. */
  lemma ChunkAt(letter: char, ops: seq<PathToken>, n: nat, start: nat, k: nat)
    requires n > 0 && k * n + n <= |ops|
    ensures k < |Chunk(letter, ops, n, start)|
    ensures k == 0 ==> Chunk(letter, ops, n, start)[k] == Group(letter, ops, n, 0, start)
    ensures k > 0 ==> Chunk(letter, ops, n, start)[k] == Group(Continue(letter), ops, n, k * n, ops[k * n - 1].end)
  {
    OffsetIsProduct(k, n);
    ChunkAtOffset(letter, ops, n, start, k, k * n);
  }

  /** `k` groups of `n` numbers, counted without multiplying. */
  function Offset(k: nat, n: nat): nat {
    if k == 0 then 0 else Offset(k - 1, n) + n
  }

  lemma {:induction false} OffsetIsProduct(k: nat, n: nat)
    ensures Offset(k, n) == k * n
  {
    if k > 0 {
      OffsetIsProduct(k - 1, n);
      Distribute(k - 1, n);
    }
  }

  lemma {:induction false} ChunkAtOffset(letter: char, ops: seq<PathToken>, n: nat, start: nat, k: nat, m: nat)
    requires n > 0 && m == Offset(k, n) && m + n <= |ops|
    ensures k < |Chunk(letter, ops, n, start)|
    ensures k == 0 ==> Chunk(letter, ops, n, start)[k] == Group(letter, ops, n, 0, start)
    ensures k > 0 ==> Chunk(letter, ops, n, start)[k] == Group(Continue(letter), ops, n, m, ops[m - 1].end)
    decreases k
  {
    if k == 0 {
      assert ops[..n] == ops[0..n];
    } else {
      var i := Offset(k - 1, n);
      var l := Continue(letter);
      ChunkAtOffset(l, ops[n..], n, ops[n - 1].end, k - 1, i);
      var rest := Chunk(l, ops[n..], n, ops[n - 1].end);
      if k == 1 {
        assert i == 0;
      } else {
        ContinueTwice(letter);
        assert ops[n..][i - 1] == ops[i + n - 1];
      }
      assert rest[k - 1] == Group(l, ops[n..], n, i, ops[i + n - 1].end);
      ChunkAtLater(letter, ops, n, start, k, i);
    }
  }

  /** Group `k > 0` of a letter's numbers is group `k - 1` of the numbers after the first group. */
  lemma ChunkAtLater(letter: char, ops: seq<PathToken>, n: nat, start: nat, k: nat, i: nat)
    requires n > 0 && k > 0 && i + n + n <= |ops|
    requires k - 1 < |Chunk(Continue(letter), ops[n..], n, ops[n - 1].end)|
    requires Chunk(Continue(letter), ops[n..], n, ops[n - 1].end)[k - 1]
             == Group(Continue(letter), ops[n..], n, i, ops[i + n - 1].end)
    ensures k < |Chunk(letter, ops, n, start)|
    ensures Chunk(letter, ops, n, start)[k] == Group(Continue(letter), ops, n, i + n, ops[i + n - 1].end)
  {
    var rest := Chunk(Continue(letter), ops[n..], n, ops[n - 1].end);
    assert Chunk(letter, ops, n, start) == [Group(letter, ops, n, 0, start)] + rest;
    GroupShift(Continue(letter), ops, n, i, ops[i + n - 1].end);
  }

  /** A group read after dropping the first `n` numbers is the group `n` further on. */
  lemma GroupShift(letter: char, ops: seq<PathToken>, n: nat, i: nat, from: nat)
    requires n > 0 && i + n + n <= |ops|
    ensures Group(letter, ops[n..], n, i, from) == Group(letter, ops, n, i + n, from)
  {
    assert ops[n..][i..i + n] == ops[i + n..i + n + n];
    assert ops[n..][i + n - 1] == ops[i + n + n - 1];
  }

  lemma Distribute(a: nat, n: nat)
    ensures (a + 1) * n == a * n + n
  {
  }

  /** A letter's numbers give one group per `n` of them; fewer than `n` left over give
      none. */
  lemma {:induction false} ChunkCount(letter: char, ops: seq<PathToken>, n: nat, start: nat)
    requires n > 0
    ensures |Chunk(letter, ops, n, start)| * n <= |ops| < |Chunk(letter, ops, n, start)| * n + n
    decreases |ops|
  {
    if |ops| >= n {
      var c := |Chunk(Continue(letter), ops[n..], n, ops[n - 1].end)|;
      ChunkCount(Continue(letter), ops[n..], n, ops[n - 1].end);
      Distribute(c, n);
    }
  }

  /** Every `Z` or `z` token gives a `Z` segment without numbers spanning exactly that
      letter. */
  lemma {:induction false} CloseGroup(toks: seq<PathToken>, i: nat, c: nat)
    requires i <= c < |toks| && toks[c].Cmd? && ToUpper(toks[c].letter) == 'Z'
    ensures Outline('Z', IsRelativeLetter(toks[c].letter), [], toks[c].start, toks[c].end) in GroupsFrom(toks, i)
    decreases |toks| - i
  {
    var z := Outline('Z', IsRelativeLetter(toks[c].letter), [], toks[c].start, toks[c].end);
    if toks[i].Num? {
      CloseGroup(toks, i + 1, c);
      assert GroupsFrom(toks, i) == GroupsFrom(toks, i + 1);
    } else {
      var j := NextCommand(toks, i + 1);
      var g := CommandGroups(toks[i], toks[i + 1..j]);
      var later := GroupsFrom(toks, j);
      assert GroupsFrom(toks, i) == g + later;
      if i == c {
        assert g == [z];
        InLeft(z, g, later);
      } else {
        CloseGroup(toks, j, c);
        InRight(z, g, later);
      }
    }
  }

  lemma InLeft(x: Outline, a: seq<Outline>, b: seq<Outline>)
    requires x in a
    ensures x in a + b
  {
    var k :| 0 <= k < |a| && a[k] == x;
    assert (a + b)[k] == x;
  }

  lemma InRight(x: Outline, a: seq<Outline>, b: seq<Outline>)
    requires x in b
    ensures x in a + b
  {
    var k :| 0 <= k < |b| && b[k] == x;
    assert (a + b)[|a| + k] == x;
  }

  // ---------------------------------------------------------------------------
  // The builder reads the groups.

  /** The state after the tokens `toks` starting from `p`, one `step` per token. */
  function FoldWith(step: (Parser, PathToken) -> Parser, p: Parser, toks: seq<PathToken>): Parser {
    if toks == [] then p else step(FoldWith(step, p, toks[..|toks| - 1]), toks[|toks| - 1])
  }

  /** The builder after the tokens `toks` starting from `p`. */
  function Fold(p: Parser, toks: seq<PathToken>): Parser {
    FoldWith(Step, p, toks)
  }

  lemma {:induction false} RunIsFold(toks: seq<PathToken>)
    ensures Run(toks) == Fold(Init, toks)
  {
    if toks != [] {
      RunIsFold(toks[..|toks| - 1]);
    }
  }

  lemma {:induction false} FoldWithAppend(step: (Parser, PathToken) -> Parser, p: Parser, a: seq<PathToken>, b: seq<PathToken>)
    ensures FoldWith(step, p, a + b) == FoldWith(step, FoldWith(step, p, a), b)
    decreases |b|
  {
    if b != [] {
      assert (a + b)[..|a + b| - 1] == a + b[..|b| - 1];
      assert (a + b)[|a + b| - 1] == b[|b| - 1];
      FoldWithAppend(step, p, a, b[..|b| - 1]);
    } else {
      assert a + b == a;
    }
  }

  lemma FoldAppend(p: Parser, a: seq<PathToken>, b: seq<PathToken>)
    ensures Fold(p, a + b) == Fold(Fold(p, a), b)
  {
    FoldWithAppend(Step, p, a, b);
  }

  lemma FoldSplit(p: Parser, toks: seq<PathToken>, n: nat)
    requires n <= |toks|
    ensures Fold(p, toks) == Fold(Fold(p, toks[..n]), toks[n..])
  {
    assert toks == toks[..n] + toks[n..];
    FoldAppend(p, toks[..n], toks[n..]);
  }

  /** Folding a token in front of the rest is one step. */
  lemma FoldCons(p: Parser, t: PathToken, rest: seq<PathToken>)
    ensures Fold(p, [t] + rest) == Fold(Step(p, t), rest)
  {
    FoldAppend(p, [t], rest);
    assert Fold(p, [t]) == Step(Fold(p, []), t);
  }

  /** No group is waiting to be flushed. */
  predicate Waiting(p: Parser) {
    p.cmd.Some? ==> |p.args| < p.expectedArgs
  }

  /** No command is active. */
  predicate Idle(p: Parser) {
    p.cmd.None? && p.expectedArgs == 0
  }

  /** Each token ends before the next one starts. */
  predicate Sequential(toks: seq<PathToken>)
    decreases |toks|
  {
    |toks| < 2 || (toks[0].end <= toks[1].start && Sequential(toks[1..]))
  }

  lemma {:induction false} SequentialAt(toks: seq<PathToken>, k: nat)
    requires Sequential(toks) && k + 1 < |toks|
    ensures toks[k].end <= toks[k + 1].start
    decreases k
  {
    if k > 0 {
      SequentialAt(toks[1..], k - 1);
      assert toks[1..][k - 1] == toks[k] && toks[1..][k] == toks[k + 1];
    }
  }

  lemma {:induction false} SequentialSlice(toks: seq<PathToken>, lo: nat, hi: nat)
    requires Sequential(toks) && lo <= hi <= |toks|
    ensures Sequential(toks[lo..hi])
    decreases hi - lo
  {
    if hi - lo >= 2 {
      SequentialAt(toks, lo);
      SequentialSlice(toks, lo + 1, hi);
      assert toks[lo..hi][1..] == toks[lo + 1..hi];
    }
  }

  /** Every command token holds a command letter and is not empty. */
  predicate Lettered(toks: seq<PathToken>) {
    forall k :: 0 <= k < |toks| && toks[k].Cmd? ==> IsCommandLetter(toks[k].letter) && toks[k].start < toks[k].end
  }

  lemma SequentialOf(toks: seq<PathToken>)
    requires TokensOk(toks)
    ensures Sequential(toks) && Lettered(toks)
  {
    SequentialFrom(toks, 0);
    assert toks[0..] == toks;
  }

  lemma {:induction false} SequentialFrom(toks: seq<PathToken>, i: nat)
    requires TokensOk(toks) && i <= |toks|
    ensures Sequential(toks[i..])
    decreases |toks| - i
  {
    if |toks| - i >= 2 {
      SequentialFrom(toks, i + 1);
      assert toks[i..][1..] == toks[i + 1..];
      assert toks[i..][0] == toks[i] && toks[i..][1] == toks[i + 1];
    }
  }

  /** Numbers read while no command is active change nothing but the discarded numbers. */
  lemma {:induction false} IdleNumbers(p: Parser, ops: seq<PathToken>)
    requires Idle(p) && forall k :: 0 <= k < |ops| ==> ops[k].Num?
    ensures Idle(Fold(p, ops)) && Fold(p, ops).segments == p.segments
  {
    if ops != [] {
      IdleNumbers(p, ops[..|ops| - 1]);
    }
  }

  /** The builder part-way through a group of `n` numbers read with `c`. */
  predicate Reading(q: Parser, c: char, n: nat, start: nat) {
    && q.cmd == Some(c) && IsCommandLetter(c) && q.isRel == IsRelativeLetter(c)
    && q.expectedArgs == n == ArgCount(c) > 0 && q.segStart == start
  }

  /** The first `k < n` numbers of a group only collect their values. */
  lemma {:induction false} PartialGroup(q: Parser, ops: seq<PathToken>, k: nat)
    requires q.args == [] && k < q.expectedArgs && k <= |ops|
    requires forall i :: 0 <= i < k ==> ops[i].Num?
    requires 0 < k ==> q.segStart <= ops[0].start
    ensures Fold(q, ops[..k]) == q.(args := Values(ops[..k]), segEnd := if k == 0 then q.segEnd else ops[k - 1].end)
  {
    if k > 0 {
      var pre := ops[..k - 1];
      var t := ops[k - 1];
      assert ops[..k] == pre + [t];
      FoldSnoc(q, pre + [t]);
      assert (pre + [t])[..k - 1] == pre;
      PartialGroup(q, ops, k - 1);
      var p := q.(args := Values(pre), segEnd := if k == 1 then q.segEnd else ops[k - 2].end);
      assert Fold(q, pre) == p;
      NumberInGroup(p, t);
      ValuesSnoc(pre, t);
      assert Step(p, t) == q.(args := Values(pre + [t]), segEnd := t.end);
    }
  }

  /** Folding ends with one step for the last token. */
  lemma FoldSnoc(p: Parser, toks: seq<PathToken>)
    requires toks != []
    ensures Fold(p, toks) == Step(Fold(p, toks[..|toks| - 1]), toks[|toks| - 1])
  {
  }

  lemma ValuesSnoc(ops: seq<PathToken>, t: PathToken)
    ensures Values(ops + [t]) == Values(ops) + [Value(t)]
  {
  }

  /** A number that leaves its group incomplete is only collected. */
  lemma NumberInGroup(q: Parser, t: PathToken)
    requires t.Num? && |q.args| + 1 < q.expectedArgs
    ensures Step(q, t) == q.(args := q.args + [Value(t)], segEnd := t.end,
                             segStart := if q.args == [] then Min(q.segStart, t.start) else q.segStart)
  {
  }

  /** The `n`-th number flushes the group and starts the next one where it ended. */
  lemma FullGroup(q: Parser, c: char, n: nat, start: nat, ops: seq<PathToken>)
    requires Reading(q, c, n, start) && q.args == [] && n <= |ops| && start <= ops[0].start
    requires forall i :: 0 <= i < |ops| ==> ops[i].Num?
    ensures var r := Fold(q, ops[..n]);
            && Reading(r, Continue(c), n, ops[n - 1].end) && r.args == []
            && Outlines(r.segments)
               == Outlines(q.segments) + [Outline(ToUpper(c), IsRelativeLetter(c), Values(ops[..n]), start, ops[n - 1].end)]
  {
    var pre := ops[..n - 1];
    var t := ops[n - 1];
    assert ops[..n] == pre + [t];
    FoldSnoc(q, pre + [t]);
    assert (pre + [t])[..n - 1] == pre;
    PartialGroup(q, ops, n - 1);
    var p := q.(args := Values(pre), segEnd := if n == 1 then q.segEnd else ops[n - 2].end);
    assert Fold(q, pre) == p;
    ValuesSnoc(pre, t);
    var q' := p.(args := Values(ops[..n]), segEnd := t.end, segStart := start);
    CompleteInGroup(p, t, q');
    GroupCompleteReads(q', c, n, start, t.end);
    OutlinesSnoc(q.segments, ParsedSegment(ToUpper(c), IsRelativeLetter(c), q'.args, start, t.end, q.current, q.subpath));
  }

  /** The number that completes a group flushes it. */
  lemma CompleteInGroup(p: Parser, t: PathToken, q: Parser)
    requires t.Num? && |p.args| + 1 == p.expectedArgs
    requires q == p.(args := p.args + [Value(t)], segEnd := t.end,
                     segStart := if p.args == [] then Min(p.segStart, t.start) else p.segStart)
    ensures Step(p, t) == GroupComplete(q, t.end)
  {
  }

  /** Flushing a complete group appends its segment and reads on with `Continue(c)`. */
  lemma GroupCompleteReads(q: Parser, c: char, n: nat, start: nat, end: nat)
    requires Reading(q, c, n, start) && |q.args| == n
    ensures var r := GroupComplete(q, end);
            && Reading(r, Continue(c), n, end) && r.args == []
            && r.segments == q.segments + [ParsedSegment(ToUpper(c), IsRelativeLetter(c), q.args, start, q.segEnd, q.current, q.subpath)]
  {
    CommandLetterFacts(c);
  }

  lemma OutlinesSnoc(segs: seq<ParsedSegment>, seg: ParsedSegment)
    ensures Outlines(segs + [seg]) == Outlines(segs) + [OutlineOf(seg)]
  {
  }

  /** The numbers a letter owns give the segments of `Chunk`. */
  lemma {:induction false} ChunkRead(q: Parser, c: char, n: nat, start: nat, ops: seq<PathToken>)
    requires Reading(q, c, n, start) && q.args == [] && Sequential(ops) && (ops != [] ==> start <= ops[0].start)
    requires forall i :: 0 <= i < |ops| ==> ops[i].Num?
    ensures Waiting(Fold(q, ops))
    ensures Outlines(Fold(q, ops).segments) == Outlines(q.segments) + Chunk(c, ops, n, start)
    decreases |ops|, 1
  {
    if |ops| < n {
      IncompleteGroup(q, ops);
    } else {
      ChunkReadFull(q, c, n, start, ops);
    }
  }

  /** `ChunkRead` when at least one group is complete. */
  lemma {:induction false} ChunkReadFull(q: Parser, c: char, n: nat, start: nat, ops: seq<PathToken>)
    requires Reading(q, c, n, start) && q.args == [] && n <= |ops| && Sequential(ops) && start <= ops[0].start
    requires forall i :: 0 <= i < |ops| ==> ops[i].Num?
    ensures Waiting(Fold(q, ops))
    ensures Outlines(Fold(q, ops).segments) == Outlines(q.segments) + Chunk(c, ops, n, start)
    decreases |ops|, 0
  {
    FullGroup(q, c, n, start, ops);
    var r := Fold(q, ops[..n]);
    RestOk(ops, n);
    ChunkRead(r, Continue(c), n, ops[n - 1].end, ops[n..]);
    ChunkReadLater(q, c, n, start, ops);
  }

  /** The numbers after the first group are numbers in text order, the first starting
      after that group ends. */
  lemma RestOk(ops: seq<PathToken>, n: nat)
    requires Sequential(ops) && 0 < n <= |ops|
    requires forall i :: 0 <= i < |ops| ==> ops[i].Num?
    ensures Sequential(ops[n..]) && (ops[n..] != [] ==> ops[n - 1].end <= ops[n..][0].start)
    ensures forall i :: 0 <= i < |ops[n..]| ==> ops[n..][i].Num?
  {
    SequentialSlice(ops, n, |ops|);
    assert ops[n..|ops|] == ops[n..];
    if n < |ops| {
      SequentialAt(ops, n - 1);
    }
  }

  /** Fewer numbers than a group needs add no segment. */
  lemma IncompleteGroup(q: Parser, ops: seq<PathToken>)
    requires q.args == [] && |ops| < q.expectedArgs && (ops != [] ==> q.segStart <= ops[0].start)
    requires forall i :: 0 <= i < |ops| ==> ops[i].Num?
    ensures Waiting(Fold(q, ops)) && Fold(q, ops).segments == q.segments
  {
    PartialGroup(q, ops, |ops|);
    assert ops[..|ops|] == ops;
  }

  /** The first group of a letter's numbers followed by the groups of the rest. */
  lemma ChunkReadLater(q: Parser, c: char, n: nat, start: nat, ops: seq<PathToken>)
    requires n > 0 && n <= |ops|
    requires Outlines(Fold(q, ops[..n]).segments)
             == Outlines(q.segments) + [Outline(ToUpper(c), IsRelativeLetter(c), Values(ops[..n]), start, ops[n - 1].end)]
    requires Outlines(Fold(Fold(q, ops[..n]), ops[n..]).segments)
             == Outlines(Fold(q, ops[..n]).segments) + Chunk(Continue(c), ops[n..], n, ops[n - 1].end)
    ensures Fold(q, ops) == Fold(Fold(q, ops[..n]), ops[n..])
    ensures Outlines(Fold(q, ops).segments) == Outlines(q.segments) + Chunk(c, ops, n, start)
  {
    var g := Group(c, ops, n, 0, start);
    assert ops[0..n] == ops[..n];
    var later := Chunk(Continue(c), ops[n..], n, ops[n - 1].end);
    assert Chunk(c, ops, n, start) == [g] + later;
    FoldSplit(q, ops, n);
    Associative(Outlines(q.segments), [g], later);
  }

  /** The builder from position `i` on appends the groups of `toks[i..]`. */
  lemma {:induction false} FoldGroups(toks: seq<PathToken>, i: nat, p: Parser)
    requires Sequential(toks) && Lettered(toks) && i <= |toks|
    requires Waiting(p) && (i < |toks| && toks[i].Num? ==> Idle(p))
    ensures Waiting(Fold(p, toks[i..]))
    ensures Outlines(Fold(p, toks[i..]).segments) == Outlines(p.segments) + GroupsFrom(toks, i)
    decreases |toks| - i
  {
    if i == |toks| {
      assert toks[i..] == [];
    } else if toks[i].Num? {
      var q := SkipNumber(toks, i, p);
      FoldGroups(toks, i + 1, q);
    } else {
      var j := NextCommand(toks, i + 1);
      SequentialSlice(toks, i + 1, j);
      if i + 1 < j {
        SequentialAt(toks, i);
      }
      var q := ReadCommand(toks, i, j, p);
      assert GroupsFrom(toks, i) == CommandGroups(toks[i], toks[i + 1..j]) + GroupsFrom(toks, j);
      FoldGroups(toks, j, q);
      Associative(Outlines(p.segments), CommandGroups(toks[i], toks[i + 1..j]), GroupsFrom(toks, j));
    }
  }

  lemma Associative(a: seq<Outline>, b: seq<Outline>, c: seq<Outline>)
    ensures (a + b) + c == a + (b + c)
  {
  }

  /** A number owned by no command is skipped. */
  lemma SkipNumber(toks: seq<PathToken>, i: nat, p: Parser) returns (q: Parser)
    requires i < |toks| && toks[i].Num? && Idle(p)
    ensures q == Step(p, toks[i]) && Idle(q) && q.segments == p.segments
    ensures Fold(p, toks[i..]) == Fold(q, toks[i + 1..])
    ensures GroupsFrom(toks, i) == GroupsFrom(toks, i + 1)
  {
    q := Step(p, toks[i]);
    IdleNumbers(p, [toks[i]]);
    FoldFrom(p, toks, i);
  }

  lemma FoldFrom(p: Parser, toks: seq<PathToken>, i: nat)
    requires i < |toks|
    ensures Fold(p, toks[i..]) == Fold(Step(p, toks[i]), toks[i + 1..])
  {
    assert toks[i..] == [toks[i]] + toks[i + 1..];
    FoldCons(p, toks[i], toks[i + 1..]);
  }

  /** A command token and the numbers it owns, up to the next command token `j`. */
  lemma ReadCommand(toks: seq<PathToken>, i: nat, j: nat, p: Parser) returns (q: Parser)
    requires i < |toks| && j == NextCommand(toks, i + 1) && Waiting(p)
    requires toks[i].Cmd? && IsCommandLetter(toks[i].letter) && toks[i].start < toks[i].end
    requires Sequential(toks[i + 1..j]) && (i + 1 < j ==> toks[i].end <= toks[i + 1].start)
    ensures Waiting(q)
    ensures Fold(p, toks[i..]) == Fold(q, toks[j..])
    ensures Outlines(q.segments) == Outlines(p.segments) + CommandGroups(toks[i], toks[i + 1..j])
  {
    var t := toks[i];
    var ops := toks[i + 1..j];
    var rest := toks[j..];
    q := Fold(Step(p, t), ops);
    SplitAt(toks, i, j);
    FoldCons(p, t, ops + rest);
    FoldAppend(Step(p, t), ops, rest);
    assert ops != [] ==> ops[0] == toks[i + 1];
    CommandRead(p, t, ops);
  }

  lemma SplitAt(toks: seq<PathToken>, i: nat, j: nat)
    requires i < j <= |toks|
    ensures toks[i..] == [toks[i]] + (toks[i + 1..j] + toks[j..])
  {
  }

  /** A command token and the numbers it owns append the segments of `CommandGroups`. */
  lemma CommandRead(p: Parser, t: PathToken, ops: seq<PathToken>)
    requires Waiting(p) && t.Cmd? && IsCommandLetter(t.letter) && t.start < t.end
    requires Sequential(ops) && (ops != [] ==> t.end <= ops[0].start) && forall k :: 0 <= k < |ops| ==> ops[k].Num?
    ensures Waiting(Fold(Step(p, t), ops))
    ensures Outlines(Fold(Step(p, t), ops).segments) == Outlines(p.segments) + CommandGroups(t, ops)
  {
    CommandLetterFacts(t.letter);
    if ArgCount(t.letter) == 0 {
      CloseRead(p, t, ops);
    } else {
      var r := p.(cmd := Some(t.letter), isRel := IsRelativeLetter(t.letter), expectedArgs := ArgCount(t.letter),
                  segStart := t.start, segEnd := t.end, args := []);
      assert Guarded(p) == p;
      assert Step(p, t) == r;
      ChunkRead(r, t.letter, ArgCount(t.letter), t.start, ops);
    }
  }

  /** `Z` or `z` flushes its segment at once and leaves the numbers after it unread. */
  lemma CloseRead(p: Parser, t: PathToken, ops: seq<PathToken>)
    requires Waiting(p) && t.Cmd? && ArgCount(t.letter) == 0
    requires forall k :: 0 <= k < |ops| ==> ops[k].Num?
    ensures Waiting(Fold(Step(p, t), ops))
    ensures Outlines(Fold(Step(p, t), ops).segments) == Outlines(p.segments) + CommandGroups(t, ops)
  {
    var seg := ParsedSegment(ToUpper(t.letter), IsRelativeLetter(t.letter), [], t.start, t.end, p.current, p.subpath);
    assert Guarded(p) == p;
    assert Step(p, t).segments == p.segments + [seg];
    OutlinesSnoc(p.segments, seg);
    IdleNumbers(Step(p, t), ops);
  }

  // ---------------------------------------------------------------------------
  // The segments of a path.

  /** The segments built from the path data `d` are its groups, in order: one per `Z` or
      `z` letter and one per complete group of numbers, with the command, relativity,
      numbers and span `Groups` gives them. */
  lemma SegmentsFollowGroups(d: string)
    ensures Outlines(Segments(d)) == Groups(Tokenize(d, 0))
  {
    var toks := Tokenize(d, 0);
    TokenizeOk(d);
    SequentialOf(toks);
    RunIsFold(toks);
    assert toks[0..] == toks;
    FoldGroups(toks, 0, Init);
    assert Finish(Run(toks)) == Run(toks);
  }

  /** Each `Z` or `z` letter in the path data closes the subpath with a segment of its own
      spanning exactly that letter. */
  lemma CloseSegment(d: string, c: nat)
    requires c < |Tokenize(d, 0)| && Tokenize(d, 0)[c].Cmd? && ToUpper(Tokenize(d, 0)[c].letter) == 'Z'
    ensures exists s :: s in Segments(d) && s.command == 'Z' && s.args == []
                        && s.isRelative == IsRelativeLetter(Tokenize(d, 0)[c].letter)
                        && s.startOffset == Tokenize(d, 0)[c].start && s.endOffset == Tokenize(d, 0)[c].end
  {
    var toks := Tokenize(d, 0);
    var z := Outline('Z', IsRelativeLetter(toks[c].letter), [], toks[c].start, toks[c].end);
    CloseGroup(toks, 0, c);
    SegmentsFollowGroups(d);
    var segs := Segments(d);
    var k :| 0 <= k < |Outlines(segs)| && Outlines(segs)[k] == z;
    assert OutlineOf(segs[k]) == z;
    assert segs[k] in segs;
  }
}
