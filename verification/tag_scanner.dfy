/**
  The tag scanner of the element locator (src/svgPreviewPanel.ts:169, 183-189).
  The source finds tags with the global pattern `<\/?([a-zA-Z][a-zA-Z0-9:-]*)[^>]*?\/?>`;
  this module spells that pattern out as an explicit scanner: a match starts at a
  `<`, optionally followed by `/`, then a letter; the tag name is the longest run
  of name characters from that letter, and the match ends at the first `>` after
  it. A match ending in `/>` is self-closing, one starting with `</` is closing.
  Positions where no match starts are skipped one character at a time, exactly
  as the regular-expression engine advances.
 */
module TagScanner {
  import opened Base

  datatype TagKind = Open | SelfClose | Close

  /** One match of the tag pattern: the text range is `[start, end)`. */
  datatype TagToken = TagToken(kind: TagKind, name: string, start: nat, end: nat)

  /** The characters of `[a-zA-Z0-9:-]`. */
  predicate IsNameChar(c: char) {
    IsAsciiLetter(c) || IsDigit(c) || c == ':' || c == '-'
  }

  /** End of the longest run of name characters starting at `from`. */
  function NameEnd(text: string, from: nat): (e: nat)
    requires from <= |text|
    ensures from <= e <= |text|
    decreases |text| - from
  {
    if from == |text| || !IsNameChar(text[from]) then from else NameEnd(text, from + 1)
  }

  /** The run ends at `NameEnd`: all characters before it are name characters, the one
      at it is not. */
  lemma {:induction false} NameEndFacts(text: string, from: nat)
    requires from <= |text|
    ensures var e := NameEnd(text, from);
            && (forall j :: from <= j < e ==> IsNameChar(text[j]))
            && (e < |text| ==> !IsNameChar(text[e]))
    decreases |text| - from
  {
    if from < |text| && IsNameChar(text[from]) {
      NameEndFacts(text, from + 1);
    }
  }

  /** The match of the tag pattern that starts at position `i`, if one does. */
  function TagAt(text: string, i: nat): (r: Option<TagToken>)
    requires i < |text|
    ensures r.Some? ==> r.value.start == i && i + 2 < r.value.end <= |text|
    ensures r.Some? ==> text[i] == '<' && text[r.value.end - 1] == '>'
    ensures r.Some? ==> (r.value.kind == Close <==> text[i + 1] == '/')
    ensures r.Some? && r.value.kind == SelfClose ==> text[r.value.end - 2] == '/'
    ensures r.Some? ==> r.value.name != []
  {
    if text[i] != '<' then None
    else
      var closing := i + 1 < |text| && text[i + 1] == '/';
      var nameStart := if closing then i + 2 else i + 1;
      if nameStart >= |text| || !IsAsciiLetter(text[nameStart]) then None
      else
        match FindFrom(text, '>', nameStart)
        case None => None
        case Some(g) =>
          var name := text[nameStart..NameEnd(text, nameStart)];
          var kind := if closing then Close else if text[g - 1] == '/' then SelfClose else Open;
          Some(TagToken(kind, name, i, g + 1))
  }

  /** A match contains no `>` before its last character. */
  lemma TagAtNoGt(text: string, i: nat)
    requires i < |text| && TagAt(text, i).Some?
    ensures forall j :: i <= j < TagAt(text, i).value.end - 1 ==> text[j] != '>'
  {
    var closing := i + 1 < |text| && text[i + 1] == '/';
    var nameStart := if closing then i + 2 else i + 1;
    FindFromIsFirst(text, '>', nameStart);
  }

  /** Tokens lie inside `[lo, hi]`, are non-empty and do not overlap, in text order. */
  predicate Ordered(toks: seq<TagToken>, lo: nat, hi: nat) {
    && (forall k :: 0 <= k < |toks| ==> lo <= toks[k].start < toks[k].end <= hi)
    && (forall k :: 0 < k < |toks| ==> toks[k - 1].end <= toks[k].start)
  }

  /** All matches of the global pattern from position `from` on, as successive `exec` calls find them. */
  function Scan(text: string, from: nat): (r: seq<TagToken>)
    requires from <= |text|
    ensures Ordered(r, from, |text|)
    ensures forall k :: 0 <= k < |r| ==> TagAt(text, r[k].start) == Some(r[k])
    decreases |text| - from
  {
    if from == |text| then []
    else match TagAt(text, from)
      case Some(t) => [t] + Scan(text, t.end)
      case None => Scan(text, from + 1)
  }

  /** Position `p` lies in none of the tokens. */
  predicate Misses(toks: seq<TagToken>, p: nat) {
    toks == [] || (!(toks[0].start <= p < toks[0].end) && Misses(toks[1..], p))
  }

  /** The scanner misses no match: every position outside all tokens starts none. */
  lemma {:induction false} ScanComplete(text: string, from: nat, p: nat)
    requires from <= p < |text|
    requires Misses(Scan(text, from), p)
    ensures TagAt(text, p).None?
    decreases |text| - from
  {
    match TagAt(text, from)
    case Some(t) =>
      ScanTailMisses(text, from, p);
      ScanComplete(text, t.end, p);
    case None =>
      if p > from {
        ScanSkipMisses(text, from, p);
        ScanComplete(text, from + 1, p);
      }
  }

  /** Where no token starts at `from`, the scan from `from + 1` has the same tokens. */
  lemma ScanSkipMisses(text: string, from: nat, p: nat)
    requires from < |text| && TagAt(text, from).None?
    requires Misses(Scan(text, from), p)
    ensures Misses(Scan(text, from + 1), p)
  {
    assert Scan(text, from) == Scan(text, from + 1);
  }

  /** When a token starts at `from` and `p` lies in no token, `p` lies after the first
      token and in none of the tokens that follow it. */
  lemma ScanTailMisses(text: string, from: nat, p: nat)
    requires from <= p < |text| && TagAt(text, from).Some?
    requires Misses(Scan(text, from), p)
    ensures var t := TagAt(text, from).value;
            && t.end <= p
            && Misses(Scan(text, t.end), p)
  {
    var r := Scan(text, from);
    var t := TagAt(text, from).value;
    assert r[0] == t;
    assert r[1..] == Scan(text, t.end);
  }
}
