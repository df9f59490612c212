/**
  What the extension host tells the preview when the cursor moves
  (src/svgPreviewPanel.ts:92-107), and how it finds the path segment under the
  cursor (src/svgPreviewPanel.ts:281-305).

  Inside the opening tag of the element at the cursor, the `d` attribute is the
  first match of `\bd\s*=\s*(['"])([\s\S]*?)\1`: a `d` that does not continue a
  word, optional whitespace, `=`, optional whitespace, a quote, and everything
  up to the next quote of the same kind. The segment is looked for only when
  the element is a `path` and the cursor lies inside that value, both ends
  included.
 */
module Highlight {
  import opened Base
  import opened ElementLocator
  import opened PathSegment
  import ElementIndexFacts

  predicate IsQuote(c: char) {
    c == '"' || c == '\''
  }

  /** A match of the `d` attribute pattern: it starts at `index`, its opening quote is at
      `quote` and its closing quote at `close`. */
  datatype DMatch = DMatch(index: nat, quote: nat, close: nat)

  /** The match of the `d` attribute pattern that starts at `i`, if one does. */
  function DAttrAt(tag: string, i: nat): (r: Option<DMatch>)
    requires i <= |tag|
    ensures r.Some? ==> r.value.index == i && i < r.value.quote < r.value.close < |tag|
    ensures r.Some? ==> tag[i] == 'd' && (i == 0 || !IsWordChar(tag[i - 1]))
    ensures r.Some? ==> IsQuote(tag[r.value.quote]) && tag[r.value.close] == tag[r.value.quote]
    ensures r.Some? ==> forall j :: i <= j < r.value.quote ==> !IsQuote(tag[j])
    ensures r.Some? ==> forall j :: r.value.quote < j < r.value.close ==> tag[j] != tag[r.value.quote]
  {
    match OpeningQuote(tag, i)
    case None => None
    case Some(q) =>
      FindFromIsFirst(tag, tag[q], q + 1);
      match FindFrom(tag, tag[q], q + 1)
      case None => None
      case Some(c) => Some(DMatch(i, q, c))
  }

  /** The opening quote of a match starting at `i`: the part `\bd\s*=\s*(['"])` of the pattern. */
  function OpeningQuote(tag: string, i: nat): (r: Option<nat>)
    requires i <= |tag|
    ensures r.Some? ==> i < r.value < |tag| && IsQuote(tag[r.value])
    ensures r.Some? ==> tag[i] == 'd' && (i == 0 || !IsWordChar(tag[i - 1]))
    ensures r.Some? ==> forall j :: i <= j < r.value ==> !IsQuote(tag[j])
  {
    if i < |tag| && tag[i] == 'd' && (i == 0 || !IsWordChar(tag[i - 1])) then
      var eq := SpaceEnd(tag, i + 1);
      if eq < |tag| && tag[eq] == '=' then
        var q := SpaceEnd(tag, eq + 1);
        if q < |tag| && IsQuote(tag[q]) then
          SpaceEndFacts(tag, i + 1);
          SpaceEndFacts(tag, eq + 1);
          Some(q)
        else None
      else None
    else None
  }

  /** The leftmost match at or after `from` (`String.prototype.match` without the `g` flag). */
  function FirstDAttr(tag: string, from: nat): (r: Option<DMatch>)
    requires from <= |tag|
    ensures r.Some? ==> from <= r.value.index < |tag| && DAttrAt(tag, r.value.index) == r
    decreases |tag| - from
  {
    match DAttrAt(tag, from)
    case Some(m) => Some(m)
    case None => if from == |tag| then None else FirstDAttr(tag, from + 1)
  }

  /** No match of the pattern starts before the one `FirstDAttr` finds. */
  lemma {:induction false} FirstDAttrLeftmost(tag: string, from: nat, j: nat)
    requires from <= j <= |tag|
    requires FirstDAttr(tag, from).None? || j < FirstDAttr(tag, from).value.index
    ensures DAttrAt(tag, j).None?
    decreases |tag| - from
  {
    if DAttrAt(tag, from).None? && j > from {
      FirstDAttrLeftmost(tag, from + 1, j);
    }
  }

  /** The value of the `d` attribute and the offset in the text where it starts. */
  datatype DValue = DValue(value: string, start: nat)

  /** The `d` attribute of the opening tag `[openTagStart, openTagEnd)` of `text`, with
      `dValueStart` computed as the source does, through `indexOf(quoteChar)` in the
      matched text (src/svgPreviewPanel.ts:287-296). */
  function DAttribute(text: string, openTagStart: nat, openTagEnd: nat): (r: Option<DValue>)
    ensures r.None? <==> FirstDAttr(Substring(text, openTagStart, openTagEnd), 0).None?
  {
    var tag := Substring(text, openTagStart, openTagEnd);
    match FirstDAttr(tag, 0)
    case None => None
    case Some(m) =>
      var dValue := tag[m.quote + 1..m.close];
      var quoteChar := tag[m.quote];
      Some(DValue(dValue, openTagStart + m.index + Find(tag[m.index..m.close + 1], quoteChar) + 1))
  }

  /** `findPathSegmentAtOffset` (src/svgPreviewPanel.ts:281-305): the segment under the
      cursor in the tag's `d` value. */
  function PathSegmentAt(text: string, offset: int, openTagStart: nat, openTagEnd: nat): (r: Option<SegmentInfo>)
    ensures r.Some? ==> DAttribute(text, openTagStart, openTagEnd).Some?
    ensures r.Some? ==> DAttribute(text, openTagStart, openTagEnd).value.start <= offset
                          <= DAttribute(text, openTagStart, openTagEnd).value.start
                             + |DAttribute(text, openTagStart, openTagEnd).value.value|
  {
    SegmentInD(DAttribute(text, openTagStart, openTagEnd), offset)
  }

  /** The segment under the cursor when `offset` lies within the located `d` value, both
      ends included (src/svgPreviewPanel.ts:298-304), and none otherwise. */
  function SegmentInD(d: Option<DValue>, offset: int): (r: Option<SegmentInfo>)
    ensures r.Some? ==> d.Some? && d.value.start <= offset <= d.value.start + |d.value.value|
  {
    match d
    case None => None
    case Some(d) =>
      var dValueEnd := d.start + |d.value|;
      if offset < d.start || offset > dValueEnd then None
      else SegmentAtCursor(d.value, CursorInD(d, offset))
  }

  /** `cursorInD`: the cursor's position counted from the start of the value. */
  function CursorInD(d: DValue, offset: int): int {
    offset - d.start
  }

  /** The located value is the quoted text of the first `d` attribute of the tag: it lies
      inside the tag, between two equal quotes, and contains no such quote, so the
      offset the source computes through `indexOf` is where the value begins. */
  lemma DAttributeLocated(text: string, openTagStart: nat, openTagEnd: nat, d: DValue)
    requires openTagStart <= openTagEnd <= |text|
    requires DAttribute(text, openTagStart, openTagEnd) == Some(d)
    ensures openTagStart < d.start <= d.start + |d.value| < openTagEnd
    ensures IsQuote(text[d.start - 1]) && text[d.start + |d.value|] == text[d.start - 1]
    ensures d.value == text[d.start..d.start + |d.value|]
    ensures forall j :: d.start <= j < d.start + |d.value| ==> text[j] != text[d.start - 1]
  {
    var tag := Substring(text, openTagStart, openTagEnd);
    var m := FirstDAttr(tag, 0).value;
    assert && tag == text[openTagStart..openTagStart + |tag|] && openTagStart + |tag| == openTagEnd
           && m.quote < m.close < |tag|
           && IsQuote(tag[m.quote]) && tag[m.close] == tag[m.quote]
           && (forall j :: m.quote < j < m.close ==> tag[j] != tag[m.quote])
           && d == DValue(tag[m.quote + 1..m.close], openTagStart + m.quote + 1) by {
      FirstDAttrFound(tag, m);
      DAttributeIs(text, openTagStart, openTagEnd, m);
    }
    ValueInText(text, openTagStart, openTagEnd, tag, m.quote, m.close, d);
  }

  /** `DAttributeLocated` read from the tag into the document. */
  lemma ValueInText(text: string, openTagStart: nat, openTagEnd: nat, tag: string, q: nat, c: nat, d: DValue)
    requires openTagStart + |tag| == openTagEnd <= |text| && tag == text[openTagStart..openTagStart + |tag|]
    requires q < c < |tag|
    requires IsQuote(tag[q]) && tag[c] == tag[q]
    requires forall j :: q < j < c ==> tag[j] != tag[q]
    requires d == DValue(tag[q + 1..c], openTagStart + q + 1)
    ensures openTagStart < d.start <= d.start + |d.value| < openTagEnd
    ensures IsQuote(text[d.start - 1]) && text[d.start + |d.value|] == text[d.start - 1]
    ensures d.value == text[d.start..d.start + |d.value|]
    ensures forall j :: d.start <= j < d.start + |d.value| ==> text[j] != text[d.start - 1]
  {
    TagSlice(text, openTagStart, tag, q, c);
    forall j | d.start <= j < d.start + |d.value|
      ensures text[j] != text[d.start - 1]
    {
      assert text[j] == tag[j - openTagStart];
    }
  }

  /** Positions and slices of a tag read in the document it was cut from. */
  lemma TagSlice(text: string, openTagStart: nat, tag: string, q: nat, c: nat)
    requires openTagStart + |tag| <= |text| && tag == text[openTagStart..openTagStart + |tag|]
    requires q < c < |tag|
    ensures text[openTagStart + q] == tag[q] && text[openTagStart + c] == tag[c]
    ensures tag[q + 1..c] == text[openTagStart + q + 1..openTagStart + c]
  {
    var a, b := tag[q + 1..c], text[openTagStart + q + 1..openTagStart + c];
    forall j | 0 <= j < |a|
      ensures a[j] == b[j]
    {
      assert a[j] == tag[q + 1 + j];
    }
  }

  lemma DAttributeIs(text: string, openTagStart: nat, openTagEnd: nat, m: DMatch)
    requires FirstDAttr(Substring(text, openTagStart, openTagEnd), 0) == Some(m)
    ensures m.quote < m.close < |Substring(text, openTagStart, openTagEnd)|
    ensures DAttribute(text, openTagStart, openTagEnd)
         == Some(DValue(Substring(text, openTagStart, openTagEnd)[m.quote + 1..m.close], openTagStart + m.quote + 1))
  {
    var tag := Substring(text, openTagStart, openTagEnd);
    assert m.index + Find(tag[m.index..m.close + 1], tag[m.quote]) == m.quote by {
      FirstDAttrFound(tag, m);
      QuoteFoundByIndexOf(tag, m);
    }
  }

  lemma FirstDAttrFound(tag: string, m: DMatch)
    requires FirstDAttr(tag, 0) == Some(m)
    ensures m.index <= |tag| && DAttrAt(tag, m.index) == Some(m)
  {
  }

  /** In the matched text, the first quote of the matched kind is the opening one. */
  lemma QuoteFoundByIndexOf(tag: string, m: DMatch)
    requires m.index <= |tag| && DAttrAt(tag, m.index) == Some(m)
    ensures m.index + Find(tag[m.index..m.close + 1], tag[m.quote]) == m.quote
  {
    var w := tag[m.index..m.close + 1];
    forall j | 0 <= j < m.quote - m.index
      ensures w[j] != tag[m.quote]
    {
      assert w[j] == tag[m.index + j];
    }
    FindAt(w, tag[m.quote], m.quote - m.index);
  }

  /** `s.indexOf(c)` is `k` when `s[k]` is the first `c`. */
  lemma FindAt(s: string, c: char, k: nat)
    requires k < |s| && s[k] == c
    requires forall j :: 0 <= j < k ==> s[j] != c
    ensures Find(s, c) == k
  {
  }

  /** The message `{ type: 'highlight', path, segment }`; `None` stands for `null`. */
  datatype HighlightMessage = HighlightMessage(path: Option<Address>, segment: Option<SegmentInfo>)

  /** The message `highlightAtCursor` posts for a cursor at `offset`. */
  function HighlightFor(text: string, offset: int): (r: HighlightMessage)
    ensures r.path.None? <==> ElementAt(text, offset).None?
    ensures r.path.Some? ==> r.path.value == ElementAt(text, offset).value.path
    ensures r.segment.Some? ==> r.path.Some? && ElementAt(text, offset).value.tagName == "path"
  {
    match ElementAt(text, offset)
    case None => HighlightMessage(None, None)
    case Some(el) =>
      var segment := if el.tagName == "path" then PathSegmentAt(text, offset, el.openTagStart, el.openTagEnd) else None;
      HighlightMessage(Some(el.path), segment)
  }

  /** The message names an element exactly when some element's range holds the cursor,
      and then the deepest such element. */
  lemma HighlightPath(text: string, offset: int, msg: HighlightMessage)
    requires msg == HighlightFor(text, offset)
    ensures msg.path.Some? <==> exists j :: 0 <= j < |Elements(text)| && Contains(Elements(text)[j], offset)
    ensures msg.path.Some? ==>
              exists j :: 0 <= j < |Elements(text)| && Contains(Elements(text)[j], offset)
                && msg.path.value == Elements(text)[j].path
                && forall i :: 0 <= i < |Elements(text)| && Contains(Elements(text)[i], offset) ==>
                     |Elements(text)[i].path| <= |msg.path.value|
  {
    var els := Elements(text);
    match Deepest(els, offset)
    case None =>
    case Some(k) =>
      ElementsWellFormedAt(text, k);
  }

  /** For a cursor inside an element, the message names that element, and a segment is
      looked for only when the element is a `path`. */
  lemma HighlightForElement(text: string, offset: int, msg: HighlightMessage, el: ElementInfo)
    requires msg == HighlightFor(text, offset) && ElementAt(text, offset) == Some(el)
    ensures msg.path == Some(el.path)
    ensures msg.segment == if el.tagName == "path" then PathSegmentAt(text, offset, el.openTagStart, el.openTagEnd) else None
  {
  }

  /** No segment is found in a tag without a `d` attribute. */
  lemma PathSegmentNeedsD(text: string, offset: int, openTagStart: nat, openTagEnd: nat)
    requires DAttribute(text, openTagStart, openTagEnd).None?
    ensures PathSegmentAt(text, offset, openTagStart, openTagEnd).None?
  {
    assert PathSegmentAt(text, offset, openTagStart, openTagEnd) == SegmentInD(None, offset);
  }

  /** With a `d` attribute, the segment is the one under the cursor in its value when the
      cursor lies inside the value, both ends included, and there is none otherwise. */
  lemma PathSegmentInD(text: string, offset: int, openTagStart: nat, openTagEnd: nat, d: DValue)
    requires DAttribute(text, openTagStart, openTagEnd) == Some(d)
    ensures PathSegmentAt(text, offset, openTagStart, openTagEnd)
         == if d.start <= offset <= d.start + |d.value| then SegmentAtCursor(d.value, CursorInD(d, offset)) else None
  {
    assert PathSegmentAt(text, offset, openTagStart, openTagEnd) == SegmentInD(Some(d), offset);
  }

  lemma ElementsWellFormedAt(text: string, k: nat)
    requires k < |Elements(text)|
    ensures Elements(text)[k].openTagStart < Elements(text)[k].openTagEnd <= |text|
  {
    ElementIndexFacts.ElementsWellFormed(text);
  }

  /** `findPathSegmentAtOffset` as the host runs it. */
  method FindPathSegmentAtOffset(text: string, offset: int, openTagStart: nat, openTagEnd: nat)
    returns (r: Option<SegmentInfo>)
    ensures r == PathSegmentAt(text, offset, openTagStart, openTagEnd)
  {
    var dAttr := DAttribute(text, openTagStart, openTagEnd);
    r := SegmentInDAttribute(dAttr, offset);
  }

  /** The second half of `findPathSegmentAtOffset` (src/svgPreviewPanel.ts:292-304): the
      range check on the located `d` value and the parse. */
  method SegmentInDAttribute(dAttr: Option<DValue>, offset: int) returns (r: Option<SegmentInfo>)
    ensures r == SegmentInD(dAttr, offset)
  {
    if dAttr.None? {
      return None;
    }
    var d := dAttr.value;
    var dValueEnd := d.start + |d.value|;
    if offset < d.start || offset > dValueEnd {
      return None;
    }
    r := ParsePathSegmentAtCursor(d.value, CursorInD(d, offset));
  }

  /** `highlightAtCursor` (src/svgPreviewPanel.ts:92-107): the message it posts. */
  method HighlightAtCursor(text: string, offset: int) returns (msg: HighlightMessage)
    ensures msg == HighlightFor(text, offset)
  {
    var element := FindElementAtOffset(text, offset);
    var segment: Option<SegmentInfo> := None;
    if element.Some? && element.value.tagName == "path" {
      segment := FindPathSegmentAtOffset(text, offset, element.value.openTagStart, element.value.openTagEnd);
    }
    var path := if element.Some? then Some(element.value.path) else None;
    msg := HighlightMessage(path, segment);
  }
}
