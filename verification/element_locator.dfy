/**
  The structural indexer and element locator, `findElementAtOffset`
  (src/svgPreviewPanel.ts:168-266).

  The markup is never parsed into a tree. The tag tokens of `TagScanner` drive a
  stack machine: an opening tag pushes a frame whose address is its parent's
  address extended by the parent's child counter (or `[rootChildCount]` at top
  level), a self-closing tag is recorded at once under the same numbering, and a
  closing tag pops whatever frame is on top, whatever its name. Frames still open
  at the end of the text run to the end of the text. The locator then picks,
  among the recorded elements whose range contains the offset, one with the
  longest address; on a tie the earliest recorded one is kept.

  `Step`, `Run` and `Drain` are the specification of the indexing loops;
  `FindElementAtOffset` is the imperative algorithm, proved equal to
  `ElementAt`. The lemmas state what the indexing guarantees: ranges are well
  formed, every opening or self-closing tag yields exactly one element, and no
  two elements share an address.
 */
module ElementLocator {
  import opened Base
  import opened TagScanner

  /** Sibling indices from the top level down to the element. */
  type Address = seq<nat>

  /** A recorded element: its opening tag spans `[openTagStart, openTagEnd)`, and it
      extends to `rangeEnd` (the end of its closing tag, of itself when
      self-closing, or of the text when never closed). */
  datatype ElementRange = ElementRange(path: Address, tagName: string, openTagStart: nat, openTagEnd: nat, rangeEnd: nat)

  /** An element whose closing tag has not been seen yet, with its own child counter. */
  datatype Frame = Frame(tagName: string, childCount: nat, start: nat, tagEnd: nat, path: Address)

  /** What the locator reports about the element it found. */
  datatype ElementInfo = ElementInfo(path: Address, tagName: string, openTagStart: nat, openTagEnd: nat)

  /** The variables of the indexing loop: `stack`, `rootChildCount`, `elements`. */
  datatype IndexState = IndexState(stack: seq<Frame>, rootChildCount: nat, elements: seq<ElementRange>)

  const Start := IndexState([], 0, [])

  /** The address the next opening or self-closing tag receives. */
  function NextAddress(s: IndexState): Address {
    if s.stack == [] then [s.rootChildCount]
    else
      var top := s.stack[|s.stack| - 1];
      top.path + [top.childCount]
  }

  function Finish(f: Frame, rangeEnd: nat): ElementRange {
    ElementRange(f.path, f.tagName, f.start, f.tagEnd, rangeEnd)
  }

  /** `parent.childCount++`, or `rootChildCount++` when there is no parent. */
  function Bump(s: IndexState): IndexState {
    if s.stack == [] then s.(rootChildCount := s.rootChildCount + 1)
    else
      var n := |s.stack|;
      var top := s.stack[n - 1];
      s.(stack := s.stack[..n - 1] + [top.(childCount := top.childCount + 1)])
  }

  /** `stack.pop()` and the record of the popped element, ranging up to `rangeEnd`. */
  function Pop(s: IndexState, rangeEnd: nat): IndexState
    requires s.stack != []
  {
    var n := |s.stack|;
    IndexState(s.stack[..n - 1], s.rootChildCount, s.elements + [Finish(s.stack[n - 1], rangeEnd)])
  }

  /** One iteration of the scanning loop (src/svgPreviewPanel.ts:191-232). */
  function Step(s: IndexState, t: TagToken): (r: IndexState)
    ensures s.elements <= r.elements
    ensures |r.stack| + |r.elements| == |s.stack| + |s.elements| + (if t.kind == Close then 0 else 1)
    ensures t.kind == Close && s.stack == [] ==> r == s
    ensures t.kind == Close && s.stack != [] ==>
              && r.stack == s.stack[..|s.stack| - 1] && r.rootChildCount == s.rootChildCount
              && r.elements == s.elements + [Finish(s.stack[|s.stack| - 1], t.end)]
  {
    match t.kind
    case Close => if s.stack == [] then s else Pop(s, t.end)
    case SelfClose =>
      var b := Bump(s);
      b.(elements := s.elements + [ElementRange(NextAddress(s), t.name, t.start, t.end, t.end)])
    case Open =>
      var b := Bump(s);
      b.(stack := b.stack + [Frame(t.name, 0, t.start, t.end, NextAddress(s))])
  }

  /** The state after the scanning loop has consumed `toks`. */
  function Run(toks: seq<TagToken>): (r: IndexState)
    ensures |r.elements| <= |toks| && |r.stack| <= |toks|
  {
    if toks == [] then Start else Step(Run(toks[..|toks| - 1]), toks[|toks| - 1])
  }

  /** The loop over unclosed frames (src/svgPreviewPanel.ts:236-245): the top is recorded first. */
  function Drain(s: IndexState, textLength: nat): (r: seq<ElementRange>)
    ensures s.elements <= r
    ensures |r| == |s.elements| + |s.stack|
    ensures forall j {:trigger s.stack[j]} :: 0 <= j < |s.stack| ==>
              r[|s.elements| + |s.stack| - 1 - j] == Finish(s.stack[j], textLength)
    decreases |s.stack|
  {
    if s.stack == [] then s.elements
    else
      var r := Drain(Pop(s, textLength), textLength);
      assert r[|s.elements|] == Pop(s, textLength).elements[|s.elements|];
      r
  }

  /** Every element the indexer records for `text`, in the order it records them. */
  function Elements(text: string): seq<ElementRange> {
    Drain(Run(Scan(text, 0)), |text|)
  }

  predicate Contains(e: ElementRange, offset: int) {
    e.openTagStart <= offset <= e.rangeEnd
  }

  /** The selection loop (src/svgPreviewPanel.ts:248-255) over `els`: the index it keeps. */
  function Deepest(els: seq<ElementRange>, offset: int): (r: Option<nat>)
    ensures r.None? <==> forall j :: 0 <= j < |els| ==> !Contains(els[j], offset)
    ensures r.Some? ==> r.value < |els| && Contains(els[r.value], offset)
    ensures r.Some? ==> forall j :: 0 <= j < |els| && Contains(els[j], offset) ==>
                          |els[j].path| <= |els[r.value].path|
    ensures r.Some? ==> forall j :: 0 <= j < r.value && Contains(els[j], offset) ==>
                          |els[j].path| < |els[r.value].path|
  {
    if els == [] then None
    else
      var n := |els|;
      var b := Deepest(els[..n - 1], offset);
      assert forall j :: 0 <= j < n - 1 ==> els[..n - 1][j] == els[j];
      if Contains(els[n - 1], offset) && (b.None? || |els[n - 1].path| > |els[b.value].path|) then Some(n - 1)
      else b
  }

  function Info(e: ElementRange): ElementInfo {
    ElementInfo(e.path, e.tagName, e.openTagStart, e.openTagEnd)
  }

  /** The value `findElementAtOffset(text, offset)` returns. */
  function ElementAt(text: string, offset: int): (r: Option<ElementInfo>)
    ensures r.None? <==> forall j :: 0 <= j < |Elements(text)| ==> !Contains(Elements(text)[j], offset)
    ensures r.Some? ==> exists j :: 0 <= j < |Elements(text)| && Contains(Elements(text)[j], offset)
                         && r.value == Info(Elements(text)[j])
                         && forall i :: 0 <= i < |Elements(text)| && Contains(Elements(text)[i], offset) ==>
                              |Elements(text)[i].path| <= |Elements(text)[j].path|
  {
    var els := Elements(text);
    match Deepest(els, offset)
    case None => None
    case Some(k) => Some(Info(els[k]))
  }

  /** Bumping the top frame's counter is an update of the stack's last entry. */
  lemma BumpIsUpdate(s: IndexState)
    requires s.stack != []
    ensures var n := |s.stack|; Bump(s).stack == s.stack[n - 1 := s.stack[n - 1].(childCount := s.stack[n - 1].childCount + 1)]
  {
  }

  lemma RunSnoc(toks: seq<TagToken>, i: nat)
    requires i < |toks|
    ensures Run(toks[..i + 1]) == Step(Run(toks[..i]), toks[i])
  {
    assert toks[..i + 1][..i] == toks[..i];
  }

  /** The scanning loop of `findElementAtOffset` (src/svgPreviewPanel.ts:183-233) over the tag tokens. */
  method IndexTags(toks: seq<TagToken>) returns (stack: seq<Frame>, rootChildCount: nat, elements: seq<ElementRange>)
    ensures IndexState(stack, rootChildCount, elements) == Run(toks)
  {
    stack, rootChildCount, elements := [], 0, [];
    var i := 0;
    while i < |toks|
      invariant 0 <= i <= |toks|
      invariant IndexState(stack, rootChildCount, elements) == Run(toks[..i])
    {
      RunSnoc(toks, i);
      stack, rootChildCount, elements := IndexTag(stack, rootChildCount, elements, toks[i]);
      i := i + 1;
    }
    assert toks[..i] == toks;
  }

  /** The body of the scanning loop (src/svgPreviewPanel.ts:191-232) for one tag. */
  method IndexTag(stack0: seq<Frame>, rootChildCount0: nat, elements0: seq<ElementRange>, tok: TagToken)
    returns (stack: seq<Frame>, rootChildCount: nat, elements: seq<ElementRange>)
    ensures IndexState(stack, rootChildCount, elements) == Step(IndexState(stack0, rootChildCount0, elements0), tok)
  {
    stack, rootChildCount, elements := stack0, rootChildCount0, elements0;
    if tok.kind == Close {
      if |stack| > 0 {
        var top := stack[|stack| - 1];
        stack := stack[..|stack| - 1];
        elements := elements + [ElementRange(top.path, top.tagName, top.start, top.tagEnd, tok.end)];
      }
    } else {
      var depth := |stack|;
      var path := if depth > 0 then stack[depth - 1].path + [stack[depth - 1].childCount] else [rootChildCount];
      if depth > 0 {
        BumpIsUpdate(IndexState(stack0, rootChildCount0, elements0));
        stack := stack[depth - 1 := stack[depth - 1].(childCount := stack[depth - 1].childCount + 1)];
      } else {
        rootChildCount := rootChildCount + 1;
      }
      if tok.kind == SelfClose {
        elements := elements + [ElementRange(path, tok.name, tok.start, tok.end, tok.end)];
      } else {
        stack := stack + [Frame(tok.name, 0, tok.start, tok.end, path)];
      }
    }
  }

  /** The loop over unclosed frames (src/svgPreviewPanel.ts:236-245). */
  method CloseUnclosed(stack0: seq<Frame>, rootChildCount: nat, elements0: seq<ElementRange>, textLength: nat)
    returns (elements: seq<ElementRange>)
    ensures elements == Drain(IndexState(stack0, rootChildCount, elements0), textLength)
  {
    var stack := stack0;
    elements := elements0;
    while |stack| > 0
      invariant Drain(IndexState(stack, rootChildCount, elements), textLength)
             == Drain(IndexState(stack0, rootChildCount, elements0), textLength)
      decreases |stack|
    {
      var top := stack[|stack| - 1];
      stack := stack[..|stack| - 1];
      elements := elements + [ElementRange(top.path, top.tagName, top.start, top.tagEnd, textLength)];
    }
  }

  /** One more element for the selection: it becomes the pick when it contains the
      offset and is deeper than the pick so far. */
  lemma DeepestStep(els: seq<ElementRange>, k: nat, offset: int)
    requires k < |els|
    ensures Deepest(els[..k + 1], offset)
         == if Contains(els[k], offset) && (Deepest(els[..k], offset).None? || |els[k].path| > |els[Deepest(els[..k], offset).value].path|)
            then Some(k) else Deepest(els[..k], offset)
  {
    assert els[..k + 1][..k] == els[..k];
    assert els[..k + 1][k] == els[k];
    match Deepest(els[..k], offset)
    case None =>
    case Some(j) =>
      assert els[..k + 1][j] == els[j];
  }

  /** The selection loop (src/svgPreviewPanel.ts:248-255): the first element with the
      longest address among those containing `offset`. */
  method SelectDeepest(elements: seq<ElementRange>, offset: int) returns (best: Option<ElementRange>)
    ensures best == match Deepest(elements, offset) case None => None case Some(j) => Some(elements[j])
  {
    best := None;
    for k := 0 to |elements|
      invariant best == match Deepest(elements[..k], offset) case None => None case Some(j) => Some(elements[j])
    {
      var el := elements[k];
      DeepestStep(elements, k, offset);
      if offset >= el.openTagStart && offset <= el.rangeEnd {
        if best.None? || |el.path| > |best.value.path| {
          best := Some(el);
        }
      }
    }
    assert elements[..|elements|] == elements;
  }

  /** `findElementAtOffset` (src/svgPreviewPanel.ts:168-266). */
  method FindElementAtOffset(text: string, offset: int) returns (r: Option<ElementInfo>)
    ensures r == ElementAt(text, offset)
  {
    var stack, rootChildCount, recorded := IndexTags(Scan(text, 0));
    var elements := CloseUnclosed(stack, rootChildCount, recorded, |text|);
    var best := SelectDeepest(elements, offset);
    if best.None? {
      return None;
    }
    return Some(ElementInfo(best.value.path, best.value.tagName, best.value.openTagStart, best.value.openTagEnd));
  }
}
