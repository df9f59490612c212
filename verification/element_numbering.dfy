/**
  How `findElementAtOffset` numbers siblings (src/svgPreviewPanel.ts:183-245).

  Every opening or self-closing tag receives the address `NextAddress` of the
  scanning loop's state at that point, and the counter it reads is bumped. The
  lemmas prove that the numbering is dense: the last index of every address
  handed out is the number of addresses handed out earlier under the same
  parent address (the top level for one-index addresses). So siblings are
  numbered `0, 1, 2, ...` in tag order, whatever closing tags come between
  them, and every handed-out address is the address of exactly the element the
  indexer records for that tag.
 */
module ElementNumbering {
  import opened Base
  import opened TagScanner
  import opened ElementLocator
  import opened ElementIndexFacts

  /** `h` is numbered directly under the parent address `q` (the top level when `q` is empty). */
  predicate ChildOf(h: Address, q: Address) {
    |h| == |q| + 1 && h[..|q|] == q
  }

  /** How many of `hs` are numbered directly under `q`. */
  function Siblings(hs: seq<Address>, q: Address): nat {
    if hs == [] then 0
    else Siblings(hs[..|hs| - 1], q) + (if ChildOf(hs[|hs| - 1], q) then 1 else 0)
  }

  /** The addresses the scanning loop hands out for `toks`, one per opening or
      self-closing tag, in tag order. */
  function Handed(toks: seq<TagToken>): (hs: seq<Address>)
    ensures |hs| == Openers(toks)
  {
    if toks == [] then []
    else
      var init := toks[..|toks| - 1];
      Handed(init) + (if toks[|toks| - 1].kind == Close then [] else [NextAddress(Run(init))])
  }

  /** Every address's last index counts the addresses handed out before it under its parent. */
  predicate Dense(hs: seq<Address>) {
    forall k :: 0 <= k < |hs| ==> |hs[k]| >= 1 && hs[k][|hs[k]| - 1] == Siblings(hs[..k], hs[k][..|hs[k]| - 1])
  }

  /** Each counter is the number of addresses handed out under its frame (the root
      counter: at the top level). */
  predicate Counted(st: seq<Frame>, root: nat, hs: seq<Address>) {
    && root == Siblings(hs, [])
    && forall j :: 0 <= j < |st| ==> st[j].childCount == Siblings(hs, st[j].path)
  }

  predicate InState(h: Address, s: IndexState) {
    || (exists a :: 0 <= a < |s.elements| && s.elements[a].path == h)
    || (exists j :: 0 <= j < |s.stack| && s.stack[j].path == h)
  }

  /** The handed-out addresses are exactly those of the recorded elements and the open frames. */
  predicate Tracked(s: IndexState, hs: seq<Address>) {
    && (forall k :: 0 <= k < |hs| ==> InState(hs[k], s))
    && (forall a :: 0 <= a < |s.elements| ==> s.elements[a].path in hs)
    && (forall j :: 0 <= j < |s.stack| ==> s.stack[j].path in hs)
  }

  /** What the scanning loop keeps about the addresses `hs` it has handed out. */
  predicate Numbered(s: IndexState, hs: seq<Address>) {
    Counted(s.stack, s.rootChildCount, hs) && Tracked(s, hs) && Dense(hs)
  }

  lemma SiblingsAppend(hs: seq<Address>, h: Address, q: Address)
    ensures Siblings(hs + [h], q) == Siblings(hs, q) + (if ChildOf(h, q) then 1 else 0)
  {
    assert (hs + [h])[..|hs|] == hs;
  }

  lemma {:induction false} SiblingsNone(hs: seq<Address>, q: Address)
    requires forall k :: 0 <= k < |hs| ==> !ChildOf(hs[k], q)
    ensures Siblings(hs, q) == 0
  {
    if hs != [] {
      var init := hs[..|hs| - 1];
      assert forall k :: 0 <= k < |init| ==> init[k] == hs[k];
      SiblingsNone(init, q);
    }
  }

  lemma DenseAppend(hs: seq<Address>, h: Address)
    requires Dense(hs) && |h| >= 1 && h[|h| - 1] == Siblings(hs, h[..|h| - 1])
    ensures Dense(hs + [h])
  {
    var all := hs + [h];
    forall k | 0 <= k < |all|
      ensures |all[k]| >= 1 && all[k][|all[k]| - 1] == Siblings(all[..k], all[k][..|all[k]| - 1])
    {
      if k < |hs| {
        assert all[..k] == hs[..k] && all[k] == hs[k];
      } else {
        assert all[..k] == hs;
      }
    }
  }

  /** The address handed out next carries the count of its earlier siblings. */
  lemma NextIsCount(s: IndexState, pos: nat, hs: seq<Address>)
    requires Inv(s, pos) && Counted(s.stack, s.rootChildCount, hs)
    ensures var h := NextAddress(s); |h| >= 1 && h[|h| - 1] == Siblings(hs, h[..|h| - 1])
  {
    var h := NextAddress(s);
    NextAddressFresh(s, pos);
    if s.stack != [] {
      assert h[..|h| - 1] == s.stack[|s.stack| - 1].path;
    }
  }

  /** Bumping the counter the next address reads counts that address. */
  lemma BumpCounted(s: IndexState, pos: nat, hs: seq<Address>)
    requires Inv(s, pos) && Counted(s.stack, s.rootChildCount, hs)
    ensures Counted(Bump(s).stack, Bump(s).rootChildCount, hs + [NextAddress(s)])
  {
    var h := NextAddress(s);
    var b := Bump(s);
    var n := |s.stack|;
    NextAddressFresh(s, pos);
    BumpKeeps(s, pos);
    SiblingsAppend(hs, h, []);
    forall j | 0 <= j < |b.stack|
      ensures b.stack[j].childCount == Siblings(hs + [h], b.stack[j].path)
    {
      SiblingsAppend(hs, h, s.stack[j].path);
      assert |s.stack[j].path| == j + 1;
    }
  }

  /** No handed-out address lies directly under the next address. */
  lemma NoneUnderNext(s: IndexState, pos: nat, hs: seq<Address>)
    requires Inv(s, pos) && Tracked(s, hs)
    ensures Siblings(hs, NextAddress(s)) == 0
  {
    var h := NextAddress(s);
    NextAddressFresh(s, pos);
    forall k | 0 <= k < |hs|
      ensures !ChildOf(hs[k], h)
    {
      assert InState(hs[k], s);
      if exists j :: 0 <= j < |s.stack| && s.stack[j].path == hs[k] {
        var j :| 0 <= j < |s.stack| && s.stack[j].path == hs[k];
        assert |hs[k]| == j + 1;
      } else {
        var a :| 0 <= a < |s.elements| && s.elements[a].path == hs[k];
        assert !(|s.elements[a].path| >= |h| && s.elements[a].path[..|h|] == h);
      }
    }
    SiblingsNone(hs, h);
  }

  /** An address stays tracked when the elements only grow and every frame either keeps
      its place or has become an element. */
  lemma InStateKept(h: Address, s: IndexState, r: IndexState)
    requires InState(h, s)
    requires |s.elements| <= |r.elements| && forall a :: 0 <= a < |s.elements| ==> r.elements[a] == s.elements[a]
    requires forall j :: 0 <= j < |s.stack| ==>
               (j < |r.stack| && r.stack[j].path == s.stack[j].path)
               || (exists a :: 0 <= a < |r.elements| && r.elements[a].path == s.stack[j].path)
    ensures InState(h, r)
  {
    if exists a :: 0 <= a < |s.elements| && s.elements[a].path == h {
      var a :| 0 <= a < |s.elements| && s.elements[a].path == h;
      assert r.elements[a].path == h;
    } else {
      var j :| 0 <= j < |s.stack| && s.stack[j].path == h;
      if j < |r.stack| && r.stack[j].path == s.stack[j].path {
        assert InState(h, r);
      }
    }
  }

  lemma PopTracked(s: IndexState, rangeEnd: nat, hs: seq<Address>)
    requires s.stack != [] && Tracked(s, hs)
    ensures Tracked(Pop(s, rangeEnd), hs)
  {
    var r := Pop(s, rangeEnd);
    var n := |s.stack|;
    assert r.elements[|s.elements|].path == s.stack[n - 1].path;
    forall k | 0 <= k < |hs|
      ensures InState(hs[k], r)
    {
      InStateKept(hs[k], s, r);
    }
  }

  lemma SelfCloseTracked(s: IndexState, t: TagToken, pos: nat, hs: seq<Address>)
    requires Inv(s, pos) && Tracked(s, hs) && t.kind == SelfClose && pos <= t.start < t.end
    ensures Tracked(Step(s, t), hs + [NextAddress(s)])
  {
    var r := Step(s, t);
    var h := NextAddress(s);
    BumpKeeps(s, pos);
    SelfCloseStack(s, t, pos);
    assert r.elements[|s.elements|].path == h;
    forall k | 0 <= k < |hs + [h]|
      ensures InState((hs + [h])[k], r)
    {
      if k < |hs| {
        InStateKept(hs[k], s, r);
      }
    }
  }

  lemma OpenTracked(s: IndexState, t: TagToken, pos: nat, hs: seq<Address>)
    requires Inv(s, pos) && Tracked(s, hs) && t.kind == Open && pos <= t.start < t.end
    ensures Tracked(Step(s, t), hs + [NextAddress(s)])
  {
    var r := Step(s, t);
    var h := NextAddress(s);
    BumpKeeps(s, pos);
    OpenStack(s, t, pos);
    assert r.stack[|s.stack|].path == h;
    forall k | 0 <= k < |hs + [h]|
      ensures InState((hs + [h])[k], r)
    {
      if k < |hs| {
        InStateKept(hs[k], s, r);
      }
    }
  }

  /** One tag keeps the counters, the tracking and the density. */
  lemma StepNumbered(s: IndexState, t: TagToken, pos: nat, hs: seq<Address>, hs': seq<Address>)
    requires Inv(s, pos) && pos <= t.start < t.end && Numbered(s, hs)
    requires hs' == if t.kind == Close then hs else hs + [NextAddress(s)]
    ensures Numbered(Step(s, t), hs')
  {
    match t.kind
    case Close =>
      if s.stack != [] {
        PopTracked(s, t.end, hs);
      }
    case SelfClose => SelfCloseNumbered(s, t, pos, hs);
    case Open => OpenNumbered(s, t, pos, hs);
  }

  lemma SelfCloseNumbered(s: IndexState, t: TagToken, pos: nat, hs: seq<Address>)
    requires Inv(s, pos) && pos <= t.start < t.end && Numbered(s, hs) && t.kind == SelfClose
    ensures Numbered(Step(s, t), hs + [NextAddress(s)])
  {
    NextIsCount(s, pos, hs);
    DenseAppend(hs, NextAddress(s));
    BumpCounted(s, pos, hs);
    SelfCloseStack(s, t, pos);
    SelfCloseTracked(s, t, pos, hs);
  }

  lemma OpenNumbered(s: IndexState, t: TagToken, pos: nat, hs: seq<Address>)
    requires Inv(s, pos) && pos <= t.start < t.end && Numbered(s, hs) && t.kind == Open
    ensures Numbered(Step(s, t), hs + [NextAddress(s)])
  {
    NextIsCount(s, pos, hs);
    DenseAppend(hs, NextAddress(s));
    OpenCounted(s, t, pos, hs);
    OpenTracked(s, t, pos, hs);
  }

  /** The pushed frame starts with a zero counter, and nothing lies under its fresh address. */
  lemma OpenCounted(s: IndexState, t: TagToken, pos: nat, hs: seq<Address>)
    requires Inv(s, pos) && pos <= t.start < t.end && Numbered(s, hs) && t.kind == Open
    ensures Counted(Step(s, t).stack, Step(s, t).rootChildCount, hs + [NextAddress(s)])
  {
    var h := NextAddress(s);
    var b := Bump(s);
    var r := Step(s, t);
    BumpCounted(s, pos, hs);
    OpenStack(s, t, pos);
    NoneUnderNext(s, pos, hs);
    SiblingsAppend(hs, h, h);
    forall j | 0 <= j < |r.stack|
      ensures r.stack[j].childCount == Siblings(hs + [h], r.stack[j].path)
    {
      if j < |b.stack| {
        assert r.stack[j] == b.stack[j];
      }
    }
  }

  /** The scanning loop keeps the counters, the tracking and the density. */
  lemma {:induction false} RunNumbered(toks: seq<TagToken>, hi: nat)
    requires Ordered(toks, 0, hi)
    ensures Numbered(Run(toks), Handed(toks))
  {
    if toks != [] {
      var n := |toks|;
      var init := toks[..n - 1];
      var t := toks[n - 1];
      OrderedPrefix(toks, hi);
      RunNumbered(init, hi);
      var pos := LastStepReady(toks, hi);
      StepNumbered(Run(init), t, pos, Handed(init), Handed(toks));
    }
  }

  /** Before the last tag the scanning state keeps its invariant at a position no later than that tag. */
  lemma LastStepReady(toks: seq<TagToken>, hi: nat) returns (pos: nat)
    requires Ordered(toks, 0, hi) && toks != []
    ensures Inv(Run(toks[..|toks| - 1]), pos)
    ensures pos <= toks[|toks| - 1].start < toks[|toks| - 1].end
  {
    OrderedPrefix(toks, hi);
    RunInv(toks[..|toks| - 1], hi);
    pos := PreviousEnd(toks, hi);
  }

  /** The loop over unclosed frames turns the tracked frames into elements. */
  lemma {:induction false} DrainTracked(s: IndexState, n: nat, hs: seq<Address>)
    requires Tracked(s, hs)
    ensures forall e :: e in Drain(s, n) ==> e.path in hs
    ensures forall k :: 0 <= k < |hs| ==> exists e :: e in Drain(s, n) && e.path == hs[k]
    decreases |s.stack|
  {
    if s.stack != [] {
      PopTracked(s, n, hs);
      DrainTracked(Pop(s, n), n, hs);
    } else {
      assert Drain(s, n) == s.elements;
      forall k | 0 <= k < |hs|
        ensures exists e :: e in s.elements && e.path == hs[k]
      {
        assert InState(hs[k], s);
        var a :| 0 <= a < |s.elements| && s.elements[a].path == hs[k];
        assert s.elements[a] in s.elements;
      }
    }
  }

  /** Sibling numbering is dense: the addresses handed out are exactly the addresses of
      the recorded elements, one per opening or self-closing tag, and the last index of
      each is the number of addresses handed out before it under the same parent
      address, the top level counting for one-index addresses. */
  lemma DenseNumbering(text: string, hs: seq<Address>, els: seq<ElementRange>)
    requires hs == Handed(Scan(text, 0)) && els == Elements(text)
    ensures |hs| == Openers(Scan(text, 0))
    ensures forall e :: e in els ==> e.path in hs
    ensures forall k :: 0 <= k < |hs| ==> exists e :: e in els && e.path == hs[k]
    ensures forall k :: 0 <= k < |hs| ==>
              |hs[k]| >= 1 && hs[k][|hs[k]| - 1] == Siblings(hs[..k], hs[k][..|hs[k]| - 1])
  {
    var s := Run(Scan(text, 0));
    RunNumbered(Scan(text, 0), |text|);
    NumberedDense(s, hs);
    ElementsTracked(text, s, hs, els);
  }

  lemma NumberedDense(s: IndexState, hs: seq<Address>)
    requires Numbered(s, hs)
    ensures forall k :: 0 <= k < |hs| ==>
              |hs[k]| >= 1 && hs[k][|hs[k]| - 1] == Siblings(hs[..k], hs[k][..|hs[k]| - 1])
  {
    assert Dense(hs);
  }

  lemma ElementsTracked(text: string, s: IndexState, hs: seq<Address>, els: seq<ElementRange>)
    requires s == Run(Scan(text, 0)) && Numbered(s, hs) && els == Elements(text)
    ensures forall e :: e in els ==> e.path in hs
    ensures forall k :: 0 <= k < |hs| ==> exists e :: e in els && e.path == hs[k]
  {
    assert els == Drain(s, |text|);
    assert Tracked(s, hs);
    DrainTracked(s, |text|, hs);
  }
}
