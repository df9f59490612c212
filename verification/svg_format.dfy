/**
  The document formatter (src/svgFormatter.ts:1-86): `formatSvg` puts the attributes
  of every element that has more than one on their own lines, then lays out the
  `d` value of every `path` and the `points` value of every `polygon` and `polyline`,
  double-quoted values first and single-quoted ones second. The formatting provider
  turns the result into one edit over the whole document, or none. Each global
  `replace` is a scan that, at every position, either replaces the leftmost match
  starting there and continues after it, or keeps the character and moves on.
 */
module SvgFormat {
  import opened Base
  import opened ValueFormat

  // ---- formatElementAttributes (src/svgFormatter.ts:67-86) ----

  /** A match of `/<([a-zA-Z][\w:.-]*)(\s[^>]*?)(\s*\/?>)/` starting at some `i`: the tag
      name is `[i + 1, nameEnd)`, the attributes `[nameEnd, closeStart)` and the
      close `[closeStart, gt]`. */
  datatype TagMatch = TagMatch(nameEnd: nat, closeStart: nat, gt: nat)

  /** The start of the run of whitespace that ends at `hi`, not going below `lo`. */
  function SpaceStart(s: string, lo: nat, hi: nat): (p: nat)
    requires lo <= hi <= |s|
    ensures lo <= p <= hi
    decreases hi - lo
  {
    if hi == lo || !IsSpace(s[hi - 1]) then hi else SpaceStart(s, lo, hi - 1)
  }

  /** `SpaceStart` stops at the first character, going left from `hi`, that is not whitespace. */
  lemma {:induction false} SpaceStartFacts(s: string, lo: nat, hi: nat)
    requires lo <= hi <= |s|
    ensures var p := SpaceStart(s, lo, hi);
            && (forall j :: p <= j < hi ==> IsSpace(s[j]))
            && (p > lo ==> !IsSpace(s[p - 1]))
    decreases hi - lo
  {
    if hi != lo && IsSpace(s[hi - 1]) {
      SpaceStartFacts(s, lo, hi - 1);
    }
  }

  /** End of the tag name `[\w:.-]*` that starts at `from`. */
  function NameEnd(s: string, from: nat): (e: nat)
    requires from <= |s|
    ensures from <= e <= |s|
    decreases |s| - from
  {
    if from == |s| || !IsAttrNameChar(s[from]) then from else NameEnd(s, from + 1)
  }

  /** `NameEnd` stops at the first character from `from` on that is not a name character. */
  lemma {:induction false} NameEndFacts(s: string, from: nat)
    requires from <= |s|
    ensures var e := NameEnd(s, from);
            && (forall j :: from <= j < e ==> IsAttrNameChar(s[j]))
            && (e < |s| ==> !IsAttrNameChar(s[e]))
    decreases |s| - from
  {
    if from < |s| && IsAttrNameChar(s[from]) {
      NameEndFacts(s, from + 1);
    }
  }

  /** Where the close group starts: the lazy attribute group stops at the first position
      from which only whitespace, an optional `/` and the `>` remain. */
  function CloseStart(s: string, nameEnd: nat, gt: nat): (r: nat)
    requires nameEnd < gt < |s|
    ensures nameEnd + 1 <= r <= gt
  {
    var q := if gt - 1 > nameEnd && s[gt - 1] == '/' then gt - 1 else gt;
    SpaceStart(s, nameEnd + 1, q)
  }

  /** The close group is whitespace and at most one `/`, and the lazy attribute group
      leaves no whitespace before it that it could have given up. */
  lemma CloseStartFacts(s: string, nameEnd: nat, gt: nat)
    requires nameEnd < gt < |s|
    ensures CloseShape(s[CloseStart(s, nameEnd, gt)..gt])
    ensures CloseStart(s, nameEnd, gt) > nameEnd + 1 ==> !IsSpace(s[CloseStart(s, nameEnd, gt) - 1])
  {
    var q := if gt - 1 > nameEnd && s[gt - 1] == '/' then gt - 1 else gt;
    var r := CloseStart(s, nameEnd, gt);
    SpaceStartFacts(s, nameEnd + 1, q);
    SpacesSlice(s, r, q);
    if q == gt - 1 {
      var c := s[r..gt];
      assert c[..|c| - 1] == s[r..q];
    }
  }

  /** A run of whitespace, read as a slice. */
  lemma SpacesSlice(s: string, r: nat, q: nat)
    requires r <= q <= |s| && forall j :: r <= j < q ==> IsSpace(s[j])
    ensures AllSpace(s[r..q])
  {
    forall j | 0 <= j < q - r
      ensures IsSpace(s[r..q][j])
    {
      assert s[r..q][j] == s[r + j];
    }
  }

  /** The match of the tag pattern at `i`, if there is one. */
  function TagAt(s: string, i: nat): (r: Option<TagMatch>)
    requires i < |s|
    ensures r.Some? ==> s[i] == '<' && i + 1 < r.value.nameEnd < r.value.closeStart <= r.value.gt < |s|
  {
    if s[i] == '<' && i + 1 < |s| && IsAsciiLetter(s[i + 1]) then
      var nameEnd := NameEnd(s, i + 1);
      if nameEnd < |s| && IsSpace(s[nameEnd]) then
        match FindFrom(s, '>', nameEnd + 1)
        case None => None
        case Some(gt) => Some(TagMatch(nameEnd, CloseStart(s, nameEnd, gt), gt))
      else None
    else None
  }

  /** A match found by `TagAt` is one of the pattern: `<`, a letter and name characters up
      to `nameEnd`, a whitespace character there, then no `>` before the `>` at `gt`,
      and a close group that is whitespace and at most one `/`, not preceded by
      whitespace that the lazy attribute group could have left to it. */
  lemma TagAtMatches(s: string, i: nat)
    requires i < |s| && TagAt(s, i).Some?
    ensures var m := TagAt(s, i).value;
            && IsAsciiLetter(s[i + 1])
            && (forall j :: i + 1 <= j < m.nameEnd ==> IsAttrNameChar(s[j]))
            && IsSpace(s[m.nameEnd])
            && s[m.gt] == '>'
            && (forall j :: m.nameEnd <= j < m.gt ==> s[j] != '>')
            && CloseShape(s[m.closeStart..m.gt])
            && (m.closeStart > m.nameEnd + 1 ==> !IsSpace(s[m.closeStart - 1]))
  {
    var m := TagAt(s, i).value;
    NameEndFacts(s, i + 1);
    FindFromIsFirst(s, '>', m.nameEnd + 1);
    CloseStartFacts(s, m.nameEnd, m.gt);
  }

  /** `\s*\/?`: whitespace, then at most one `/`. */
  predicate CloseShape(c: string) {
    AllSpace(c) || (|c| >= 1 && c[|c| - 1] == '/' && AllSpace(c[..|c| - 1]))
  }

  /** The callback's result for a tag named `tagName` with attribute text `attrsRaw` and
      close `close`, on a line indented by `tagIndent`: the tag as it was when it has at
      most one attribute, otherwise one attribute per line. */
  function TagLayout(tagName: string, attrsRaw: string, close: string, tagIndent: string): (r: string)
    ensures |Attributes(attrsRaw, 0)| <= 1 ==> r == "<" + tagName + attrsRaw + close
    ensures |Attributes(attrsRaw, 0)| > 1 ==> |r| > |tagName| + 1 && r[0] == '<' && r[|tagName| + 1] == '\n'
  {
    var attrs := Attributes(attrsRaw, 0);
    if |attrs| <= 1 then "<" + tagName + attrsRaw + close
    else "<" + tagName + "\n" + Join(Prefixed(tagIndent + "\t", attrs), "\n") + "\n" + tagIndent + Trim(close)
  }

  /** `t` is nothing, or a match at `p` with the bounds `TagAt` promises. */
  predicate Matched(text: string, p: nat, t: Option<TagMatch>) {
    t.Some? ==> p < |text| && text[p] == '<' && p + 1 < t.value.nameEnd < t.value.closeStart <= t.value.gt < |text|
  }

  /** Where the tag replace goes on after position `p`, given the match `t` there: just
      after the `>` of the tag, or at the next character. */
  function TagNext(text: string, p: nat, t: Option<TagMatch>): (q: nat)
    requires p < |text| && Matched(text, p, t)
    ensures p < q <= |text|
  {
    match t
    case Some(m) => m.gt + 1
    case None => p + 1
  }

  /** What the tag replace puts in place of `text[p..TagNext(text, p, t)]`: the callback's
      result for a tag matched at `p`, otherwise the character itself. Only whitespace
      changes when the tag's attribute list is well formed. */
  function TagPiece(text: string, p: nat, t: Option<TagMatch>): (r: string)
    requires p < |text| && Matched(text, p, t)
  {
    match t
    case Some(m) => TagReplacement(text, p, m)
    case None => [text[p]]
  }

  lemma TagPieceMatched(text: string, p: nat, m: TagMatch)
    requires Matched(text, p, Some(m)) && SpaceBetween(text[m.nameEnd..m.closeStart], 0)
    ensures NonSpace(TagPiece(text, p, Some(m))) == NonSpace(text[p..m.gt + 1])
  {
  }

  lemma TagPieceUnmatched(text: string, p: nat)
    requires p < |text|
    ensures NonSpace(TagPiece(text, p, None)) == NonSpace(text[p..p + 1])
  {
    CharSlice(text, p);
  }

  /** The callback's result for the tag matched at `i`, on the line of `i`; it keeps the
      tag's non-whitespace characters when its attribute list is well formed. */
  function TagReplacement(text: string, i: nat, m: TagMatch): (r: string)
    requires i + 1 <= m.nameEnd <= m.closeStart <= m.gt < |text| && text[i] == '<'
    ensures SpaceBetween(text[m.nameEnd..m.closeStart], 0) ==> NonSpace(r) == NonSpace(text[i..m.gt + 1])
  {
    var layout := TagLayout(text[i + 1..m.nameEnd], text[m.nameEnd..m.closeStart], text[m.closeStart..m.gt + 1], LineIndent(text, i));
    assert SpaceBetween(text[m.nameEnd..m.closeStart], 0) ==> NonSpace(layout) == NonSpace(text[i..m.gt + 1]) by {
      if SpaceBetween(text[m.nameEnd..m.closeStart], 0) {
        TagReplacementKeepsNonSpace(text, i, m);
      }
    }
    layout
  }

  /** The global replace from position `p` on. */
  function ReplaceTags(text: string, p: nat): (r: string)
    requires p <= |text|
    ensures '<' !in text[p..] ==> r == text[p..]
    decreases |text| - p
  {
    if p == |text| then []
    else
      assert '<' !in text[p..] ==> text[p] != '<' && '<' !in text[p + 1..] && text[p..] == [text[p]] + text[p + 1..];
      TagPiece(text, p, TagAt(text, p)) + ReplaceTags(text, TagNext(text, p, TagAt(text, p)))
  }

  /** The first pass of `formatSvg` (src/svgFormatter.ts:67-86). */
  function FormatElementAttributes(text: string): (r: string)
    ensures '<' !in text ==> r == text
    ensures TagsWellFormed(text, 0) ==> NonSpace(r) == NonSpace(text)
  {
    TagPassFacts(text);
    ReplaceTags(text, 0)
  }

  lemma TagPassFacts(text: string)
    ensures '<' !in text ==> ReplaceTags(text, 0) == text
    ensures TagsWellFormed(text, 0) ==> NonSpace(ReplaceTags(text, 0)) == NonSpace(text)
  {
    assert text[0..] == text;
    if TagsWellFormed(text, 0) {
      ReplaceTagsKeepsNonSpace(text, 0);
    }
  }

  /** Between the attribute matches, and before and after them, there is only whitespace:
      the attribute list is well formed. */
  predicate SpaceBetween(s: string, from: nat)
    requires from <= |s|
    decreases |s| - from
  {
    match NextAttribute(s, from)
    case None => AllSpace(s[from..])
    case Some((a, b)) => AllSpace(s[from..a]) && SpaceBetween(s, b)
  }

  /** One step of `SpaceBetween`: the gap before a match is whitespace, and the rest of the
      list is well formed. */
  lemma SpaceBetweenStep(s: string, from: nat, a: nat, b: nat)
    requires from <= |s| && NextAttribute(s, from) == Some((a, b))
    requires SpaceBetween(s, from)
    ensures AllSpace(s[from..a]) && SpaceBetween(s, b)
  {
  }

  /** Non-whitespace is kept piece by piece: a text made of a piece standing for `s[p..q]`
      followed by a rest standing for `s[q..]` stands for `s[p..]`. */
  lemma NonSpaceStep(s: string, p: nat, q: nat, whole: string, piece: string, rest: string)
    requires p <= q <= |s|
    requires whole == piece + rest
    requires NonSpace(piece) == NonSpace(s[p..q])
    requires NonSpace(rest) == NonSpace(s[q..])
    ensures NonSpace(whole) == NonSpace(s[p..])
  {
    NonSpaceAppend(piece, rest);
    NonSpaceSuffix(s, p, q);
  }

  /** In a well-formed attribute list the attributes hold all its non-whitespace characters. */
  lemma {:induction false} AttributesKeepNonSpace(s: string, from: nat)
    requires from <= |s|
    requires SpaceBetween(s, from)
    ensures NonSpace(Concat(Attributes(s, from))) == NonSpace(s[from..])
    decreases |s| - from
  {
    var n := NextAttribute(s, from);
    if n.None? {
      NonSpaceOfSpace(s[from..]);
    } else {
      var (a, b) := n.value;
      var attr := Trim(s[a..b]);
      var rest := Concat(Attributes(s, b));
      assert Concat(Attributes(s, from)) == attr + rest by {
        AttributesStep(s, from, a, b);
        ConcatCons(attr, Attributes(s, b));
      }
      assert NonSpace(rest) == NonSpace(s[b..]) by {
        SpaceBetweenStep(s, from, a, b);
        AttributesKeepNonSpace(s, b);
      }
      assert NonSpace(attr) == NonSpace(s[from..b]) by {
        SpaceBetweenStep(s, from, a, b);
        TrimKeepsNonSpace(s[a..b]);
        NonSpaceOfSpace(s[from..a]);
        NonSpaceSlices(s, from, a, b);
      }
      NonSpaceStep(s, from, b, Concat(Attributes(s, from)), attr, rest);
    }
  }

  /** The tag's indent is whitespace. */
  lemma LineIndentIsSpace(text: string, offset: int)
    ensures AllSpace(LineIndent(text, offset))
  {
    var g := GetIndent(text, offset);
    assert LineIndent(text, offset) == g[..|g| - 1];
  }

  /** Reformatting a tag whose attribute list is well formed changes only whitespace. */
  lemma TagReplacementKeepsNonSpace(text: string, i: nat, m: TagMatch)
    requires i + 1 <= m.nameEnd <= m.closeStart <= m.gt < |text| && text[i] == '<'
    requires SpaceBetween(text[m.nameEnd..m.closeStart], 0)
    ensures NonSpace(TagLayout(text[i + 1..m.nameEnd], text[m.nameEnd..m.closeStart], text[m.closeStart..m.gt + 1], LineIndent(text, i)))
         == NonSpace(text[i..m.gt + 1])
  {
    LineIndentIsSpace(text, i);
    TagLayoutKeepsNonSpace(text[i + 1..m.nameEnd], text[m.nameEnd..m.closeStart], text[m.closeStart..m.gt + 1], LineIndent(text, i));
    TagText(text, i, m, text[i + 1..m.nameEnd], text[m.nameEnd..m.closeStart], text[m.closeStart..m.gt + 1]);
  }

  /** The text of a matched tag is `<`, its name, its attributes and its close. */
  lemma TagText(text: string, i: nat, m: TagMatch, name: string, attrs: string, close: string)
    requires i + 1 <= m.nameEnd <= m.closeStart <= m.gt < |text| && text[i] == '<'
    requires name == text[i + 1..m.nameEnd] && attrs == text[m.nameEnd..m.closeStart]
    requires close == text[m.closeStart..m.gt + 1]
    ensures text[i..m.gt + 1] == "<" + name + attrs + close
  {
  }

  /** Laying out a tag with a well-formed attribute list changes only whitespace. */
  lemma TagLayoutKeepsNonSpace(tagName: string, attrsRaw: string, close: string, tagIndent: string)
    requires AllSpace(tagIndent)
    requires SpaceBetween(attrsRaw, 0)
    ensures NonSpace(TagLayout(tagName, attrsRaw, close, tagIndent)) == NonSpace("<" + tagName + attrsRaw + close)
  {
    var attrs := Attributes(attrsRaw, 0);
    if |attrs| > 1 {
      var head := "<" + tagName;
      var body := Join(Prefixed(tagIndent + "\t", attrs), "\n");
      assert NonSpace(body) == NonSpace(attrsRaw) by {
        LinesKeepNonSpace(attrs, tagIndent);
        AttributesKeepNonSpace(attrsRaw, 0);
        assert attrsRaw[0..] == attrsRaw;
      }
      assert NonSpace(head + "\n" + body + "\n" + tagIndent + Trim(close)) == NonSpace(head) + NonSpace(body) + NonSpace(close) by {
        LayoutKeepsNonSpace(head, body, tagIndent, Trim(close));
        TrimKeepsNonSpace(close);
      }
      NonSpaceAppend(head + attrsRaw, close);
      NonSpaceAppend(head, attrsRaw);
    }
  }

  /** The lines of a reformatted tag, each behind the attribute indent, hold the
      non-whitespace characters of the attributes. */
  lemma LinesKeepNonSpace(attrs: seq<string>, tagIndent: string)
    requires AllSpace(tagIndent)
    ensures NonSpace(Join(Prefixed(tagIndent + "\t", attrs), "\n")) == NonSpace(Concat(attrs))
  {
    assert AllSpace(tagIndent + "\t");
    JoinKeepsNonSpace(Prefixed(tagIndent + "\t", attrs), "\n");
    PrefixedKeepsNonSpace(tagIndent + "\t", attrs);
  }

  lemma LayoutKeepsNonSpace(head: string, body: string, indent: string, tail: string)
    requires AllSpace(indent)
    ensures NonSpace(head + "\n" + body + "\n" + indent + tail) == NonSpace(head) + NonSpace(body) + NonSpace(tail)
  {
    NonSpaceOfSpace(indent);
    NonSpaceOfSpace("\n");
    NonSpaceAppend(head + "\n" + body + "\n" + indent, tail);
    NonSpaceAppend(head + "\n" + body + "\n", indent);
    NonSpaceAppend(head + "\n" + body, "\n");
    NonSpaceAppend(head + "\n", body);
    NonSpaceAppend(head, "\n");
  }

  /** The tag `t` matched at `p`, if any, has a well-formed attribute list. */
  predicate TagWellFormed(text: string, p: nat, t: Option<TagMatch>)
    requires Matched(text, p, t)
  {
    match t
    case Some(m) => SpaceBetween(text[m.nameEnd..m.closeStart], 0)
    case None => true
  }

  /** Every tag the replace from `p` on rewrites has a well-formed attribute list. */
  predicate TagsWellFormed(text: string, p: nat)
    requires p <= |text|
    decreases |text| - p
  {
    p == |text| || (TagWellFormed(text, p, TagAt(text, p)) && TagsWellFormed(text, TagNext(text, p, TagAt(text, p))))
  }

  /** In a document whose rewritten tags have well-formed attribute lists, putting the
      attributes on their own lines changes only whitespace. */
  lemma {:induction false} ReplaceTagsKeepsNonSpace(text: string, p: nat)
    requires p <= |text|
    requires TagsWellFormed(text, p)
    ensures NonSpace(ReplaceTags(text, p)) == NonSpace(text[p..])
    decreases |text| - p
  {
    if p == |text| {
      assert text[p..] == [];
    } else {
      var t := TagAt(text, p);
      var q := TagNext(text, p, t);
      if t.Some? {
        TagPieceMatched(text, p, t.value);
      } else {
        TagPieceUnmatched(text, p);
      }
      ReplaceTagsKeepsNonSpace(text, q);
      NonSpaceStep(text, p, q, ReplaceTags(text, p), TagPiece(text, p, t), ReplaceTags(text, q));
    }
  }

  lemma CharSlice(s: string, p: nat)
    requires p < |s|
    ensures s[p..p + 1] == [s[p]]
  {
  }

  // ---- the value passes of formatSvg (src/svgFormatter.ts:19-52) ----

  /** Which attribute value a pass lays out. */
  datatype ValueKind = PathData | PointList

  /** The element names a pass's pattern accepts. */
  function ElementNames(kind: ValueKind): seq<string> {
    match kind
    case PathData => ["path"]
    case PointList => ["polygon", "polyline"]
  }

  function AttributeName(kind: ValueKind): string {
    match kind
    case PathData => "d"
    case PointList => "points"
  }

  /** `w` occurs at `k`, ignoring ASCII case (the `i` flag). */
  predicate MatchesAt(s: string, k: nat, w: string) {
    k + |w| <= |s| && forall j :: 0 <= j < |w| ==> ToUpper(s[k + j]) == ToUpper(w[j])
  }

  /** End of `<` and one of `names` followed by a word boundary, matched at `i`. */
  function ElementNameAt(s: string, i: nat, names: seq<string>): (r: Option<nat>)
    requires i < |s|
    ensures r.Some? ==> s[i] == '<' && i < r.value <= |s|
  {
    if s[i] != '<' || names == [] then None
    else
      var e := i + 1 + |names[0]|;
      if MatchesAt(s, i + 1, names[0]) && (e == |s| || !IsWordChar(s[e])) then Some(e)
      else ElementNameAt(s, i, names[1..])
  }

  /** `\b` + the attribute name + `\s*=\s*` + the quote, matched at `j`: the start of the value. */
  function ValueStartAt(s: string, j: nat, attr: string, quote: char): (r: Option<nat>)
    requires 1 <= j < |s|
    ensures r.Some? ==> j < r.value <= |s| && s[r.value - 1] == quote
  {
    if !IsWordChar(s[j - 1]) && MatchesAt(s, j, attr) && |attr| >= 1 then
      var k := SpaceEnd(s, j + |attr|);
      if k < |s| && s[k] == '=' then
        var v := SpaceEnd(s, k + 1);
        if v < |s| && s[v] == quote then Some(v + 1) else None
      else None
    else None
  }

  /** The lazy `[^>]*?` from `j` on, followed by the attribute and a value up to the first
      closing quote (the lazy `[^"]*?` and the quote): the value's span. Where the value
      is not closed the engine extends the lazy group and tries again. */
  function ValueFrom(s: string, j: nat, attr: string, quote: char): (r: Option<(nat, nat)>)
    requires 1 <= j <= |s|
    ensures r.Some? ==> j < r.value.0 <= r.value.1 < |s| && s[r.value.1] == quote
    decreases |s| - j
  {
    if j == |s| then None
    else
      match ValueStartAt(s, j, attr, quote)
      case Some(v) =>
        (match FindFrom(s, quote, v)
         case Some(c) => Some((v, c))
         case None => if s[j] == '>' then None else ValueFrom(s, j + 1, attr, quote))
      case None => if s[j] == '>' then None else ValueFrom(s, j + 1, attr, quote)
  }

  /** The match of a pass's pattern at `i`: the span of the value it captures. */
  function ValueMatch(s: string, i: nat, kind: ValueKind, quote: char): (r: Option<(nat, nat)>)
    requires i < |s|
    ensures r.Some? ==> s[i] == '<' && i < r.value.0 <= r.value.1 < |s| && s[r.value.1] == quote
  {
    match ElementNameAt(s, i, ElementNames(kind))
    case None => None
    case Some(e) => if e == |s| then None else ValueFrom(s, e, AttributeName(kind), quote)
  }

  /** The callback's layout of a captured value. */
  function FormatValue(kind: ValueKind, value: string, indent: string): string {
    match kind
    case PathData => FormatPathD(value, indent)
    case PointList => FormatPointsValue(value, indent)
  }

  /** Where a value pass goes on after position `p`: just after the closing quote of a
      value matched there, otherwise at the next character. */
  function ValueNext(s: string, p: nat, kind: ValueKind, quote: char): (q: nat)
    requires p < |s|
    ensures p < q <= |s|
  {
    match ValueMatch(s, p, kind, quote)
    case Some((_, c)) => c + 1
    case None => p + 1
  }

  /** What a value pass puts in place of `s[p..ValueNext(s, p, kind, quote)]`: the match
      with its value laid out, or the character itself. */
  function ValuePiece(s: string, p: nat, kind: ValueKind, quote: char): string
    requires p < |s|
  {
    match ValueMatch(s, p, kind, quote)
    case Some((v, c)) => ValueReplacement(s, p, v, c, kind, quote)
    case None => [s[p]]
  }

  /** The callback's result for a match from `p` whose value is `s[v..c]`, closed by the
      quote at `c`; the indent is computed on the text as it was before the pass. Laying
      out path data keeps the match's non-whitespace characters. */
  function ValueReplacement(s: string, p: nat, v: nat, c: nat, kind: ValueKind, quote: char): (r: string)
    requires p <= v <= c < |s| && s[c] == quote
    ensures kind == PathData ==> NonSpace(r) == NonSpace(s[p..c + 1])
  {
    var r := s[p..v] + FormatValue(kind, s[v..c], GetIndent(s, p)) + [quote];
    assert kind == PathData ==> NonSpace(r) == NonSpace(s[p..c + 1]) by {
      if kind == PathData {
        PathValueKeepsNonSpace(s, p, v, c, quote);
      }
    }
    r
  }

  /** The global replace of a pass from position `p` on. */
  function ReplaceValues(s: string, p: nat, kind: ValueKind, quote: char): string
    requires p <= |s|
    decreases |s| - p
  {
    if p == |s| then [] else ValuePiece(s, p, kind, quote) + ReplaceValues(s, ValueNext(s, p, kind, quote), kind, quote)
  }

  /** One `replace` of `formatSvg` with the pattern for `kind` and `quote` (src/svgFormatter.ts:28-49). */
  function ValuePass(s: string, kind: ValueKind, quote: char): (r: string)
    ensures '<' !in s ==> r == s
    ensures kind == PathData ==> NonSpace(r) == NonSpace(s)
  {
    ValuePassFacts(s, kind, quote);
    ReplaceValues(s, 0, kind, quote)
  }

  lemma ValuePassFacts(s: string, kind: ValueKind, quote: char)
    ensures '<' !in s ==> ReplaceValues(s, 0, kind, quote) == s
    ensures kind == PathData ==> NonSpace(ReplaceValues(s, 0, kind, quote)) == NonSpace(s)
  {
    assert s[0..] == s;
    if '<' !in s {
      NoElementValuePass(s, 0, kind, quote);
    }
    if kind == PathData {
      PathPassKeepsNonSpace(s, 0, quote);
    }
  }

  /** `formatSvg`. */
  function FormatSvg(text: string): (r: string)
    ensures '<' !in text ==> r == text
  {
    var result := FormatElementAttributes(text);
    var result := ValuePass(result, PathData, '"');
    var result := ValuePass(result, PathData, '\'');
    var result := ValuePass(result, PointList, '"');
    ValuePass(result, PointList, '\'')
  }

  /** The path passes change only whitespace. */
  lemma {:induction false} PathPassKeepsNonSpace(s: string, p: nat, quote: char)
    requires p <= |s|
    ensures NonSpace(ReplaceValues(s, p, PathData, quote)) == NonSpace(s[p..])
    decreases |s| - p
  {
    if p == |s| {
      assert s[p..] == [];
    } else {
      var q := ValueNext(s, p, PathData, quote);
      PathPieceKeepsNonSpace(s, p, q, quote);
      PathPassKeepsNonSpace(s, q, quote);
      NonSpaceStep(s, p, q, ReplaceValues(s, p, PathData, quote), ValuePiece(s, p, PathData, quote),
                   ReplaceValues(s, q, PathData, quote));
    }
  }

  /** One step of a path pass changes only whitespace. */
  lemma PathPieceKeepsNonSpace(s: string, p: nat, q: nat, quote: char)
    requires p < |s| && q == ValueNext(s, p, PathData, quote)
    ensures NonSpace(ValuePiece(s, p, PathData, quote)) == NonSpace(s[p..q])
  {
    if ValueMatch(s, p, PathData, quote).None? {
      CharSlice(s, p);
    }
  }

  /** The text of one path-data match, with its value laid out, keeps its non-whitespace. */
  lemma PathValueKeepsNonSpace(s: string, p: nat, v: nat, c: nat, quote: char)
    requires p <= v <= c < |s| && s[c] == quote
    ensures NonSpace(s[p..v] + FormatPathD(s[v..c], GetIndent(s, p)) + [quote]) == NonSpace(s[p..c + 1])
  {
    var f := FormatPathD(s[v..c], GetIndent(s, p));
    FormatPathDKeepsNonSpace(s[v..c], GetIndent(s, p));
    NonSpaceAppend(s[p..v] + f, [quote]);
    NonSpaceAppend(s[p..v], f);
    NonSpaceSlices(s, p, c, c + 1);
    NonSpaceSlices(s, p, v, c);
    CharSlice(s, c);
  }

  /** A pass leaves a text with no `<` in it as it is. */
  lemma {:induction false} NoElementValuePass(s: string, p: nat, kind: ValueKind, quote: char)
    requires p <= |s|
    requires '<' !in s
    ensures ReplaceValues(s, p, kind, quote) == s[p..]
    decreases |s| - p
  {
    if p < |s| {
      assert s[p] != '<';
      assert ValueMatch(s, p, kind, quote).None?;
      NoElementValuePass(s, p + 1, kind, quote);
      assert s[p..] == [s[p]] + s[p + 1..];
    }
  }

  lemma {:induction false} NoElementTags(s: string, p: nat)
    requires p <= |s|
    requires '<' !in s
    ensures ReplaceTags(s, p) == s[p..]
    decreases |s| - p
  {
    if p < |s| {
      NoElementTags(s, p + 1);
      assert s[p..] == [s[p]] + s[p + 1..];
    }
  }

  /** A document with no element in it is left as it is. */
  lemma FormatSvgWithoutElements(text: string)
    requires '<' !in text
    ensures FormatSvg(text) == text
  {
    NoElementTags(text, 0);
    assert text[0..] == text;
    NoElementValuePass(text, 0, PathData, '"');
    NoElementValuePass(text, 0, PathData, '\'');
    NoElementValuePass(text, 0, PointList, '"');
    NoElementValuePass(text, 0, PointList, '\'');
  }

  /** Laying out the path data of a document whose tags have well-formed attribute lists
      changes only whitespace; only the points passes can change other characters. */
  lemma FormatSvgPathsKeepNonSpace(text: string)
    requires TagsWellFormed(text, 0)
    ensures var afterPaths := ValuePass(ValuePass(FormatElementAttributes(text), PathData, '"'), PathData, '\'');
            NonSpace(afterPaths) == NonSpace(text)
  {
    var r0 := FormatElementAttributes(text);
    ReplaceTagsKeepsNonSpace(text, 0);
    assert text[0..] == text;
    var r1 := ValuePass(r0, PathData, '"');
    PathPassKeepsNonSpace(r0, 0, '"');
    assert r0[0..] == r0;
    PathPassKeepsNonSpace(r1, 0, '\'');
    assert r1[0..] == r1;
  }

  // ---- the formatting provider (src/svgFormatter.ts:3-17) ----

  /** A replacement of the document text between two offsets. */
  datatype TextEdit = TextEdit(start: nat, end: nat, newText: string)

  /** `provideDocumentFormattingEdits`: no edit when formatting changes nothing, otherwise
      one edit replacing the whole document. */
  function FormattingEdits(text: string): (edits: seq<TextEdit>)
    ensures |edits| <= 1
  {
    var formatted := FormatSvg(text);
    if formatted == text then [] else [TextEdit(0, |text|, formatted)]
  }

  /** Applying edits, each given against the original text, from the last to the first. */
  function ApplyEdits(text: string, edits: seq<TextEdit>): string
    decreases |edits|
  {
    if edits == [] then text
    else
      var e := edits[|edits| - 1];
      if e.start <= e.end <= |text| then
        ApplyEdits(text[..e.start] + e.newText + text[e.end..], edits[..|edits| - 1])
      else ApplyEdits(text, edits[..|edits| - 1])
  }

  /** Applying the provider's edits gives the formatted document, and there is an edit
      exactly when formatting changes the document. */
  lemma FormattingEditsApply(text: string)
    ensures ApplyEdits(text, FormattingEdits(text)) == FormatSvg(text)
    ensures FormattingEdits(text) == [] <==> FormatSvg(text) == text
  {
    var formatted := FormatSvg(text);
    if formatted != text {
      ApplyWhole(text, formatted);
    }
  }

  /** One edit spanning the whole text replaces it. */
  lemma ApplyWhole(text: string, formatted: string)
    ensures ApplyEdits(text, [TextEdit(0, |text|, formatted)]) == formatted
  {
    var edits := [TextEdit(0, |text|, formatted)];
    assert edits[..0] == [];
    assert text[..0] + formatted + text[|text|..] == formatted;
  }
}
