/**
  What the indexing loops of `findElementAtOffset` guarantee
  (src/svgPreviewPanel.ts:183-245), proved about `ElementLocator.Elements`:
  element ranges are well formed and end inside the text, every opening or
  self-closing tag yields exactly one element, and no two elements share an
  address.

  The proof keeps one invariant over the loop state. Frame `j` of the stack has
  an address of length `j + 1` that extends the address of every frame below
  it; every address handed out so far lies below the counter of the frame (or
  of the root) it was numbered under; and no two addresses handed out so far
  coincide. The address the next tag receives is then fresh.
 */
module ElementIndexFacts {
  import opened Base
  import opened TagScanner
  import opened ElementLocator

  predicate ChainOk(st: seq<Frame>, root: nat) {
    && (forall j :: 0 <= j < |st| ==> |st[j].path| == j + 1 && st[j].path[0] < root)
    && (forall i, j :: 0 <= i <= j < |st| ==> st[j].path[..i + 1] == st[i].path)
    && (forall i, j :: 0 <= i < j < |st| ==> st[j].path[i + 1] < st[i].childCount)
  }

  /** `e` was numbered under the counters the stack still holds. */
  predicate Below(e: ElementRange, st: seq<Frame>, root: nat) {
    && 1 <= |e.path| && e.path[0] < root
    && forall j :: 0 <= j < |st| && j + 1 < |e.path| && e.path[..j + 1] == st[j].path ==>
         e.path[j + 1] < st[j].childCount
  }

  predicate WellFormed(e: ElementRange, pos: nat) {
    e.openTagStart < e.openTagEnd <= e.rangeEnd <= pos
  }

  predicate DistinctPaths(els: seq<ElementRange>) {
    forall a, b :: 0 <= a < b < |els| ==> els[a].path != els[b].path
  }

  predicate Inv(s: IndexState, pos: nat) {
    && ChainOk(s.stack, s.rootChildCount)
    && (forall j :: 0 <= j < |s.stack| ==> s.stack[j].start < s.stack[j].tagEnd <= pos)
    && (forall a :: 0 <= a < |s.elements| ==>
          WellFormed(s.elements[a], pos) && Below(s.elements[a], s.stack, s.rootChildCount))
    && DistinctPaths(s.elements)
    && (forall a, j :: 0 <= a < |s.elements| && 0 <= j < |s.stack| ==> s.elements[a].path != s.stack[j].path)
  }

  /** The next address extends the top frame's and is not a prefix of any recorded address. */
  lemma NextAddressFresh(s: IndexState, pos: nat)
    requires Inv(s, pos)
    ensures |NextAddress(s)| == |s.stack| + 1
    ensures s.stack != [] ==> NextAddress(s)[..|s.stack|] == s.stack[|s.stack| - 1].path
    ensures forall a :: 0 <= a < |s.elements| ==>
              !(|s.elements[a].path| >= |NextAddress(s)|
                && s.elements[a].path[..|NextAddress(s)|] == NextAddress(s))
  {
    var p := NextAddress(s);
    var n := |s.stack|;
    forall a | 0 <= a < |s.elements|
      ensures !(|s.elements[a].path| >= |p| && s.elements[a].path[..|p|] == p)
    {
      var e := s.elements[a];
      assert Below(e, s.stack, s.rootChildCount);
    }
  }

  lemma PopInv(s: IndexState, rangeEnd: nat, pos: nat)
    requires Inv(s, pos) && s.stack != [] && pos <= rangeEnd
    ensures Inv(Pop(s, rangeEnd), rangeEnd)
  {
    PopBelow(s, rangeEnd, pos);
    PopDistinct(s, rangeEnd, pos);
    PopApart(s, rangeEnd, pos);
  }

  /** After a pop every element, the finished one included, is still `Below` the stack. */
  lemma PopBelow(s: IndexState, rangeEnd: nat, pos: nat)
    requires Inv(s, pos) && s.stack != [] && pos <= rangeEnd
    ensures var r := Pop(s, rangeEnd);
            forall a :: 0 <= a < |r.elements| ==> Below(r.elements[a], r.stack, r.rootChildCount)
  {
    var r := Pop(s, rangeEnd);
    var e := Finish(s.stack[|s.stack| - 1], rangeEnd);
    assert Below(e, r.stack, r.rootChildCount) by {
      forall j | 0 <= j < |r.stack| && j + 1 < |e.path| && e.path[..j + 1] == r.stack[j].path
        ensures e.path[j + 1] < r.stack[j].childCount
      {
        assert s.stack[j] == r.stack[j];
      }
    }
    forall a | 0 <= a < |r.elements|
      ensures Below(r.elements[a], r.stack, r.rootChildCount)
    {
      if a < |s.elements| {
        assert r.elements[a] == s.elements[a];
        assert Below(s.elements[a], s.stack, s.rootChildCount);
      }
    }
  }

  /** The finished element's address differs from every recorded one. */
  lemma PopDistinct(s: IndexState, rangeEnd: nat, pos: nat)
    requires Inv(s, pos) && s.stack != [] && pos <= rangeEnd
    ensures DistinctPaths(Pop(s, rangeEnd).elements)
  {
    var r := Pop(s, rangeEnd);
    forall a, b | 0 <= a < b < |r.elements|
      ensures r.elements[a].path != r.elements[b].path
    {
      if b == |s.elements| {
        assert r.elements[a] == s.elements[a];
      }
    }
  }

  /** No element address equals an address left on the stack after a pop. */
  lemma PopApart(s: IndexState, rangeEnd: nat, pos: nat)
    requires Inv(s, pos) && s.stack != [] && pos <= rangeEnd
    ensures var r := Pop(s, rangeEnd);
            forall a, j :: 0 <= a < |r.elements| && 0 <= j < |r.stack| ==> r.elements[a].path != r.stack[j].path
  {
    var n := |s.stack|;
    var r := Pop(s, rangeEnd);
    var e := Finish(s.stack[n - 1], rangeEnd);
    forall a, j | 0 <= a < |r.elements| && 0 <= j < |r.stack|
      ensures r.elements[a].path != r.stack[j].path
    {
      if a == |s.elements| {
        assert |r.stack[j].path| == j + 1 < n == |e.path|;
      } else {
        assert r.elements[a] == s.elements[a];
      }
    }
  }

  /** Bumping the counter keeps the chain and `Below`, with the counter one larger. */
  lemma BumpKeeps(s: IndexState, pos: nat)
    requires Inv(s, pos)
    ensures var b := Bump(s);
      && |b.stack| == |s.stack| && b.elements == s.elements
      && (forall j :: 0 <= j < |s.stack| ==>
            b.stack[j].path == s.stack[j].path && b.stack[j].start == s.stack[j].start
            && b.stack[j].tagEnd == s.stack[j].tagEnd && b.stack[j].tagName == s.stack[j].tagName
            && b.stack[j].childCount == s.stack[j].childCount + (if j == |s.stack| - 1 then 1 else 0))
      && b.rootChildCount == s.rootChildCount + (if s.stack == [] then 1 else 0)
      && ChainOk(b.stack, b.rootChildCount)
      && (forall a :: 0 <= a < |s.elements| ==> Below(s.elements[a], b.stack, b.rootChildCount))
  {
    var b := Bump(s);
    forall a | 0 <= a < |s.elements|
      ensures Below(s.elements[a], b.stack, b.rootChildCount)
    {
      assert Below(s.elements[a], s.stack, s.rootChildCount);
    }
  }

  lemma StepSelfCloseInv(s: IndexState, t: TagToken, pos: nat)
    requires Inv(s, pos) && t.kind == SelfClose && pos <= t.start < t.end
    ensures Inv(Step(s, t), t.end)
  {
    var r := Step(s, t);
    BumpKeeps(s, pos);
    SelfCloseStack(s, t, pos);
    SelfCloseBelow(s, t, pos);
    SelfCloseDistinct(s, t, pos);
    SelfCloseApart(s, t, pos);
    assert forall j :: 0 <= j < |r.stack| ==> r.stack[j].start < r.stack[j].tagEnd <= t.end;
  }

  /** A self-closing tag bumps the counter and records one element at the next address. */
  lemma SelfCloseStack(s: IndexState, t: TagToken, pos: nat)
    requires Inv(s, pos) && t.kind == SelfClose && pos <= t.start < t.end
    ensures var b := Bump(s);
            && Step(s, t).stack == b.stack && Step(s, t).rootChildCount == b.rootChildCount
            && Step(s, t).elements == s.elements + [ElementRange(NextAddress(s), t.name, t.start, t.end, t.end)]
  {
  }

  lemma SelfCloseBelow(s: IndexState, t: TagToken, pos: nat)
    requires Inv(s, pos) && t.kind == SelfClose && pos <= t.start < t.end
    ensures var r := Step(s, t);
            forall a :: 0 <= a < |r.elements| ==>
              WellFormed(r.elements[a], t.end) && Below(r.elements[a], r.stack, r.rootChildCount)
  {
    var n := |s.stack|;
    var p := NextAddress(s);
    NextAddressFresh(s, pos);
    BumpKeeps(s, pos);
    SelfCloseStack(s, t, pos);
    var r := Step(s, t);
    var e := ElementRange(p, t.name, t.start, t.end, t.end);
    assert Below(e, r.stack, r.rootChildCount) by {
      if n == 0 {
        assert e.path[0] < r.rootChildCount;
      } else {
        assert e.path[0] == s.stack[n - 1].path[0];
      }
      forall j | 0 <= j < |r.stack| && j + 1 < |e.path| && e.path[..j + 1] == r.stack[j].path
        ensures e.path[j + 1] < r.stack[j].childCount
      {
        if j < n - 1 {
          assert e.path[j + 1] == s.stack[n - 1].path[j + 1];
        }
      }
    }
    forall a | 0 <= a < |r.elements|
      ensures WellFormed(r.elements[a], t.end) && Below(r.elements[a], r.stack, r.rootChildCount)
    {
      if a < |s.elements| {
        assert r.elements[a] == s.elements[a];
      }
    }
  }

  lemma SelfCloseDistinct(s: IndexState, t: TagToken, pos: nat)
    requires Inv(s, pos) && t.kind == SelfClose && pos <= t.start < t.end
    ensures DistinctPaths(Step(s, t).elements)
  {
    NextAddressFresh(s, pos);
    SelfCloseStack(s, t, pos);
    var r := Step(s, t);
    forall a, c | 0 <= a < c < |r.elements|
      ensures r.elements[a].path != r.elements[c].path
    {
      if c == |s.elements| {
        assert r.elements[a] == s.elements[a];
        assert s.elements[a].path[..|s.elements[a].path|] == s.elements[a].path;
      }
    }
  }

  lemma SelfCloseApart(s: IndexState, t: TagToken, pos: nat)
    requires Inv(s, pos) && t.kind == SelfClose && pos <= t.start < t.end
    ensures var r := Step(s, t);
            forall a, j :: 0 <= a < |r.elements| && 0 <= j < |r.stack| ==> r.elements[a].path != r.stack[j].path
  {
    var n := |s.stack|;
    NextAddressFresh(s, pos);
    BumpKeeps(s, pos);
    SelfCloseStack(s, t, pos);
    var r := Step(s, t);
    forall a, j | 0 <= a < |r.elements| && 0 <= j < |r.stack|
      ensures r.elements[a].path != r.stack[j].path
    {
      if a < |s.elements| {
        assert r.stack[j] == Bump(s).stack[j];
      } else {
        assert |r.stack[j].path| == j + 1 <= n < |r.elements[a].path|;
      }
    }
  }

  lemma StepOpenInv(s: IndexState, t: TagToken, pos: nat)
    requires Inv(s, pos) && t.kind == Open && pos <= t.start < t.end
    ensures Inv(Step(s, t), t.end)
  {
    var r := Step(s, t);
    OpenStack(s, t, pos);
    OpenChainOk(s, t, pos);
    OpenBelow(s, t, pos);
    OpenApart(s, t, pos);
    assert forall j :: 0 <= j < |r.stack| ==> r.stack[j].start < r.stack[j].tagEnd <= t.end;
  }

  /** An opening tag pushes one frame on the bumped stack and records no element. */
  lemma OpenStack(s: IndexState, t: TagToken, pos: nat)
    requires Inv(s, pos) && t.kind == Open && pos <= t.start < t.end
    ensures var b := Bump(s);
            && Step(s, t).stack == b.stack + [Frame(t.name, 0, t.start, t.end, NextAddress(s))]
            && Step(s, t).rootChildCount == b.rootChildCount
            && Step(s, t).elements == s.elements
  {
  }

  lemma OpenChainOk(s: IndexState, t: TagToken, pos: nat)
    requires Inv(s, pos) && t.kind == Open && pos <= t.start < t.end
    ensures ChainOk(Step(s, t).stack, Step(s, t).rootChildCount)
  {
    OpenStack(s, t, pos);
    PushChainOk(s, pos, Frame(t.name, 0, t.start, t.end, NextAddress(s)));
  }

  /** Pushing a frame with no children at the next address on the bumped stack keeps the chain. */
  lemma PushChainOk(s: IndexState, pos: nat, f: Frame)
    requires Inv(s, pos) && f.path == NextAddress(s) && f.childCount == 0
    ensures ChainOk(Bump(s).stack + [f], Bump(s).rootChildCount)
  {
    PushLengths(s, pos, f);
    PushPrefixes(s, pos, f);
    PushCounters(s, pos, f);
  }

  lemma PushLengths(s: IndexState, pos: nat, f: Frame)
    requires Inv(s, pos) && f.path == NextAddress(s)
    ensures var st := Bump(s).stack + [f];
            forall j :: 0 <= j < |st| ==> |st[j].path| == j + 1 && st[j].path[0] < Bump(s).rootChildCount
  {
    var n := |s.stack|;
    NextAddressFresh(s, pos);
    BumpKeeps(s, pos);
    if n > 0 {
      assert NextAddress(s)[0] == s.stack[n - 1].path[0];
    }
  }

  lemma PushPrefixes(s: IndexState, pos: nat, f: Frame)
    requires Inv(s, pos) && f.path == NextAddress(s)
    ensures var st := Bump(s).stack + [f];
            forall i, j :: 0 <= i <= j < |st| ==> st[j].path[..i + 1] == st[i].path
  {
    NextAddressFresh(s, pos);
    BumpKeeps(s, pos);
    var b := Bump(s).stack;
    assert b != [] ==> b[|b| - 1].path == s.stack[|s.stack| - 1].path;
    PrefixesPushed(b, f);
  }

  /** A frame whose address extends the top frame's by one index keeps every address
      a prefix of those above it. */
  lemma PrefixesPushed(st: seq<Frame>, f: Frame)
    requires forall j :: 0 <= j < |st| ==> |st[j].path| == j + 1
    requires forall i, j :: 0 <= i <= j < |st| ==> st[j].path[..i + 1] == st[i].path
    requires |f.path| == |st| + 1 && (st != [] ==> f.path[..|st|] == st[|st| - 1].path)
    ensures forall i, j :: 0 <= i <= j < |st + [f]| ==> (st + [f])[j].path[..i + 1] == (st + [f])[i].path
  {
    var n := |st|;
    var r := st + [f];
    forall i, j | 0 <= i <= j < |r|
      ensures r[j].path[..i + 1] == r[i].path
    {
      if j < n {
        assert r[j] == st[j] && r[i] == st[i];
      } else if i < n {
        assert r[i] == st[i];
        assert f.path[..i + 1] == f.path[..n][..i + 1];
      } else {
        assert f.path[..i + 1] == f.path;
      }
    }
  }

  lemma PushCounters(s: IndexState, pos: nat, f: Frame)
    requires Inv(s, pos) && f.path == NextAddress(s) && f.childCount == 0
    ensures var st := Bump(s).stack + [f];
            forall i, j :: 0 <= i < j < |st| ==> st[j].path[i + 1] < st[i].childCount
  {
    var n := |s.stack|;
    var p := NextAddress(s);
    NextAddressFresh(s, pos);
    BumpKeeps(s, pos);
    var st := Bump(s).stack + [f];
    forall i, j | 0 <= i < j < |st|
      ensures st[j].path[i + 1] < st[i].childCount
    {
      if j == n && i < n - 1 {
        assert p[i + 1] == s.stack[n - 1].path[i + 1];
      }
    }
  }

  lemma OpenBelow(s: IndexState, t: TagToken, pos: nat)
    requires Inv(s, pos) && t.kind == Open && pos <= t.start < t.end
    ensures var r := Step(s, t);
            forall a :: 0 <= a < |r.elements| ==> Below(r.elements[a], r.stack, r.rootChildCount)
  {
    var n := |s.stack|;
    NextAddressFresh(s, pos);
    BumpKeeps(s, pos);
    OpenStack(s, t, pos);
    var b := Bump(s);
    var r := Step(s, t);
    forall a | 0 <= a < |r.elements|
      ensures Below(r.elements[a], r.stack, r.rootChildCount)
    {
      var e := s.elements[a];
      assert Below(e, b.stack, b.rootChildCount);
      forall j | 0 <= j < |r.stack| && j + 1 < |e.path| && e.path[..j + 1] == r.stack[j].path
        ensures e.path[j + 1] < r.stack[j].childCount
      {
        if j == n {
          assert false;
        } else {
          assert r.stack[j] == b.stack[j];
        }
      }
    }
  }

  lemma OpenApart(s: IndexState, t: TagToken, pos: nat)
    requires Inv(s, pos) && t.kind == Open && pos <= t.start < t.end
    ensures var r := Step(s, t);
            forall a, j :: 0 <= a < |r.elements| && 0 <= j < |r.stack| ==> r.elements[a].path != r.stack[j].path
  {
    var n := |s.stack|;
    NextAddressFresh(s, pos);
    BumpKeeps(s, pos);
    OpenStack(s, t, pos);
    var r := Step(s, t);
    forall a, j | 0 <= a < |r.elements| && 0 <= j < |r.stack|
      ensures r.elements[a].path != r.stack[j].path
    {
      if j == n {
        assert s.elements[a].path[..|s.elements[a].path|] == s.elements[a].path;
      } else {
        assert r.stack[j].path == s.stack[j].path;
      }
    }
  }

  lemma StepInv(s: IndexState, t: TagToken, pos: nat)
    requires Inv(s, pos) && pos <= t.start < t.end
    ensures Inv(Step(s, t), t.end)
  {
    match t.kind
    case Close => if s.stack != [] { PopInv(s, t.end, pos); }
    case SelfClose => StepSelfCloseInv(s, t, pos);
    case Open => StepOpenInv(s, t, pos);
  }

  lemma InvMono(s: IndexState, pos: nat, pos': nat)
    requires Inv(s, pos) && pos <= pos'
    ensures Inv(s, pos')
  {
  }

  lemma OrderedPrefix(toks: seq<TagToken>, hi: nat)
    requires Ordered(toks, 0, hi) && toks != []
    ensures Ordered(toks[..|toks| - 1], 0, hi)
  {
  }

  /** The scanning loop keeps the invariant, measured at the end of the last tag consumed. */
  lemma {:induction false} RunInv(toks: seq<TagToken>, hi: nat)
    requires Ordered(toks, 0, hi)
    ensures Inv(Run(toks), if toks == [] then 0 else toks[|toks| - 1].end)
  {
    if toks != [] {
      var n := |toks|;
      var init := toks[..n - 1];
      var t := toks[n - 1];
      OrderedPrefix(toks, hi);
      RunInv(init, hi);
      var pos := PreviousEnd(toks, hi);
      StepInv(Run(init), t, pos);
      assert Run(toks) == Step(Run(init), t);
    }
  }

  /** The last tag starts no earlier than the end of the tag before it, where the
      invariant of the state before it is measured. */
  lemma PreviousEnd(toks: seq<TagToken>, hi: nat) returns (pos: nat)
    requires Ordered(toks, 0, hi) && toks != []
    ensures var init := toks[..|toks| - 1]; pos == if init == [] then 0 else init[|init| - 1].end
    ensures pos <= toks[|toks| - 1].start < toks[|toks| - 1].end
  {
    var n := |toks|;
    pos := if n == 1 then 0 else toks[n - 2].end;
    if n > 1 {
      assert toks[..n - 1][n - 2] == toks[n - 2];
    }
  }

  /** The loop over unclosed frames keeps the invariant and records every frame. */
  lemma {:induction false} DrainInv(s: IndexState, n: nat)
    requires Inv(s, n)
    ensures var els := Drain(s, n);
      && |els| == |s.elements| + |s.stack|
      && (forall a :: 0 <= a < |els| ==> WellFormed(els[a], n) && 1 <= |els[a].path|)
      && DistinctPaths(els)
    decreases |s.stack|
  {
    if s.stack != [] {
      PopInv(s, n, n);
      DrainInv(Pop(s, n), n);
    } else {
      forall a | 0 <= a < |s.elements|
        ensures 1 <= |s.elements[a].path|
      {
        assert Below(s.elements[a], s.stack, s.rootChildCount);
      }
    }
  }

  lemma IndexInv(text: string)
    ensures Inv(Run(Scan(text, 0)), |text|)
  {
    var toks := Scan(text, 0);
    RunInv(toks, |text|);
    InvMono(Run(toks), if toks == [] then 0 else toks[|toks| - 1].end, |text|);
  }

  /** Every recorded element satisfies `openTagStart < openTagEnd <= rangeEnd <= text.length`
      and has a non-empty address; unclosed and mismatched tags never break this. */
  lemma ElementsWellFormed(text: string)
    ensures forall e :: e in Elements(text) ==>
              e.openTagStart < e.openTagEnd <= e.rangeEnd <= |text| && |e.path| >= 1
  {
    IndexInv(text);
    DrainInv(Run(Scan(text, 0)), |text|);
  }

  /** No two recorded elements share an address. */
  lemma ElementAddressesDistinct(text: string)
    ensures forall a, b :: 0 <= a < b < |Elements(text)| ==> Elements(text)[a].path != Elements(text)[b].path
  {
    IndexInv(text);
    DrainInv(Run(Scan(text, 0)), |text|);
  }

  /** Number of opening and self-closing tags among `toks`. */
  function Openers(toks: seq<TagToken>): nat {
    if toks == [] then 0
    else Openers(toks[..|toks| - 1]) + (if toks[|toks| - 1].kind == Close then 0 else 1)
  }

  lemma {:induction false} RunCount(toks: seq<TagToken>)
    ensures |Run(toks).elements| + |Run(toks).stack| == Openers(toks)
  {
    if toks != [] {
      var init := toks[..|toks| - 1];
      RunCount(init);
      var s := Run(init);
      assert |Bump(s).stack| == |s.stack|;
    }
  }

  lemma {:induction false} DrainCount(s: IndexState, n: nat)
    ensures |Drain(s, n)| == |s.elements| + |s.stack|
    decreases |s.stack|
  {
    if s.stack != [] {
      DrainCount(Pop(s, n), n);
    }
  }

  /** Every opening and every self-closing tag yields exactly one element; closing tags
      yield none, whether they match an open element or arrive on an empty stack. */
  lemma ElementCount(text: string)
    ensures |Elements(text)| == Openers(Scan(text, 0))
  {
    RunCount(Scan(text, 0));
    DrainCount(Run(Scan(text, 0)), |text|);
  }

  /** `e` ends where a closing or self-closing tag of `toks` ends. */
  predicate EndsAtTag(e: ElementRange, toks: seq<TagToken>) {
    exists k :: 0 <= k < |toks| && toks[k].kind != Open && toks[k].end == e.rangeEnd
  }

  /** Every element the scanning loop records ends with the closing tag that popped it,
      or with itself when it is self-closing. */
  lemma {:induction false} RunEnds(toks: seq<TagToken>)
    ensures forall a :: 0 <= a < |Run(toks).elements| ==> EndsAtTag(Run(toks).elements[a], toks)
  {
    if toks != [] {
      var n := |toks|;
      var init := toks[..n - 1];
      var s := Run(init);
      var r := Run(toks);
      RunEnds(init);
      assert r == Step(s, toks[n - 1]);
      forall a | 0 <= a < |r.elements|
        ensures EndsAtTag(r.elements[a], toks)
      {
        if a < |s.elements| {
          assert r.elements[a] == s.elements[a];
          var k :| 0 <= k < |init| && init[k].kind != Open && init[k].end == s.elements[a].rangeEnd;
          assert toks[k] == init[k];
        } else {
          assert r.elements[a].rangeEnd == toks[n - 1].end && toks[n - 1].kind != Open;
        }
      }
    }
  }

  /** Closing the unclosed frames adds elements that range to the end of the text. */
  lemma DrainEnds(s: IndexState, textLength: nat, toks: seq<TagToken>, r: seq<ElementRange>)
    requires r == Drain(s, textLength)
    requires forall a :: 0 <= a < |s.elements| ==> EndsAtTag(s.elements[a], toks)
    ensures forall i :: 0 <= i < |r| ==> r[i].rangeEnd == textLength || EndsAtTag(r[i], toks)
  {
    forall i | 0 <= i < |r|
      ensures r[i].rangeEnd == textLength || EndsAtTag(r[i], toks)
    {
      if i < |s.elements| {
        assert r[i] == s.elements[i];
      } else {
        var j := |s.elements| + |s.stack| - 1 - i;
        assert r[|s.elements| + |s.stack| - 1 - j] == Finish(s.stack[j], textLength);
      }
    }
  }

  /** Every element of the index ranges to the end of the closing tag that closed it, to
      its own end when self-closing, or to the end of the text when never closed. */
  lemma ElementRangeEnds(text: string)
    ensures forall i :: 0 <= i < |Elements(text)| ==>
              Elements(text)[i].rangeEnd == |text| || EndsAtTag(Elements(text)[i], Scan(text, 0))
  {
    RunEnds(Scan(text, 0));
    DrainEnds(Run(Scan(text, 0)), |text|, Scan(text, 0), Elements(text));
  }
}
