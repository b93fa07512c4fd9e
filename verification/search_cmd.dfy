/** The `search` command's output: each result's snippet (or its verse text
    when the snippet is empty) with every case-insensitive match of the
    query wrapped by a style. The style is an abstract string wrapper. */
module SearchCmd {
  import opened TextUtil
  import opened Search

  /** A terminal style, as the escape sequences that switch it on before
      the styled text and off after it. */
  datatype Style = Style(on: string, off: string)

  /** The style that changes nothing. */
  const Unstyled := Style("", "")

  function Wrap(style: Style, s: string): string {
    style.on + s + style.off
  }

  /** One match of the cut text: the text before it, copied as is, and the
      match in the text's own case, to be styled. */
  datatype Span = Span(before: string, matched: string)

  /** A text cut at its matches: the spans in order, then the text after
      the last match. */
  datatype Cut = Cut(spans: seq<Span>, tail: string)

  /** The text cut at the spans of length `len` starting at `ps`, from
      `pos` on. */
  function CutAt(text: string, ps: seq<nat>, len: nat, pos: nat): Cut
    requires Spaced(ps, len, pos, |text|)
    decreases |ps|
  {
    if ps == [] then Cut([], text[pos..])
    else
      var rest := CutAt(text, ps[1..], len, ps[0] + len);
      Cut([Span(text[pos..ps[0]], text[ps[0]..ps[0] + len])] + rest.spans, rest.tail)
  }

  /** What `highlightSearchTerm` makes of `text`: the text cut at the
      matches `countMatches` counts; the whole text, with no match, for an
      empty query. */
  function Segments(text: string, query: string): Cut {
    if query == [] then Cut([], text)
    else
      PositionsSpaced(ToLower(text), ToLower(query), 0);
      CutAt(text, Matches(text, query), |query|, 0)
  }

  function RenderSpans(spans: seq<Span>, style: Style): string {
    if spans == [] then ""
    else spans[0].before + Wrap(style, spans[0].matched) + RenderSpans(spans[1..], style)
  }

  /** The output: the text before each match as it is, each match wrapped
      in the style, then the tail. */
  function Render(cut: Cut, style: Style): string {
    RenderSpans(cut.spans, style) + cut.tail
  }

  lemma RenderSpansCons(span: Span, spans: seq<Span>, style: Style)
    ensures RenderSpans([span] + spans, style) == span.before + Wrap(style, span.matched) + RenderSpans(spans, style)
  {
    assert ([span] + spans)[1..] == spans;
  }

  lemma Assoc3(r: string, a: string, w: string, rest: string)
    ensures r + (a + w + rest) == ((r + a) + w) + rest
  {
  }

  /** The output of `highlightSearchTerm` from `pos` on, when the spans of
      length `len` at `ps` are the matches: the text before each span
      plain, the span styled, then the rest of the text plain. */
  function Highlighted(text: string, ps: seq<nat>, len: nat, pos: nat, style: Style): string
    requires Spaced(ps, len, pos, |text|)
    decreases |ps|
  {
    if ps == [] then text[pos..]
    else text[pos..ps[0]] + Wrap(style, text[ps[0]..ps[0] + len]) + Highlighted(text, ps[1..], len, ps[0] + len, style)
  }

  /** `highlightSearchTerm`: the loop that copies the text before each match,
      writes the match styled, and resumes right after it. */
  method HighlightSearchTerm(text: string, query: string, style: Style) returns (r: string)
    ensures r == Render(Segments(text, query), style)
  {
    if query == [] {
      return text;
    }
    var lowerText := ToLower(text);
    var lowerQuery := ToLower(query);
    ghost var matches := Matches(text, query);
    PositionsGreedy(lowerText, lowerQuery, 0);
    PositionsSpaced(lowerText, lowerQuery, 0);
    r := HighlightLowered(text, lowerText, lowerQuery, style, matches);
    HighlightedRender(text, matches, |query|, 0, style);
  }

  /** The loop of `highlightSearchTerm`, on the lowered text and query;
      `matches` is the leftmost non-overlapping reading of the query in the
      lowered text, which the loop's searches find one by one. */
  method HighlightLowered(text: string, lowerText: string, lowerQuery: string, style: Style,
                          ghost matches: seq<nat>) returns (r: string)
    requires |lowerText| == |text| && lowerQuery != []
    requires Greedy(lowerText, lowerQuery, 0, matches) && Spaced(matches, |lowerQuery|, 0, |text|)
    ensures r == Highlighted(text, matches, |lowerQuery|, 0, style)
  {
    ghost var total := Highlighted(text, matches, |lowerQuery|, 0, style);
    ghost var ps := matches;
    r := "";
    var pos: nat := 0;
    while true
      invariant pos <= |text|
      invariant Greedy(lowerText, lowerQuery, pos, ps)
      invariant Spaced(ps, |lowerQuery|, pos, |text|)
      invariant r + Highlighted(text, ps, |lowerQuery|, pos, style) == total
      decreases |text| - pos
    {
      var idx := NextMatch(lowerText, lowerQuery, pos, ps);
      if idx == -1 {
        r := r + text[pos..];
        break;
      }
      var next := pos + idx + |lowerQuery|;
      var matchText := text[pos + idx..next];
      ghost var rest := Highlighted(text, ps[1..], |lowerQuery|, next, style);
      assert Highlighted(text, ps, |lowerQuery|, pos, style) == text[pos..pos + idx] + Wrap(style, matchText) + rest;
      assert r + (text[pos..pos + idx] + Wrap(style, matchText) + rest) == total;
      Assoc3(r, text[pos..pos + idx], Wrap(style, matchText), rest);
      r := r + text[pos..pos + idx] + Wrap(style, matchText);
      assert r + rest == total;
      pos := next;
      ps := ps[1..];
    }
  }

  /** `strings.Index(lowerText[pos:], lowerQuery)` in the loop: -1 exactly
      when no match is left, otherwise the offset of the next match, after
      which the remaining matches read on from the end of this one. */
  method NextMatch(lowerText: string, lowerQuery: string, pos: nat, ghost ps: seq<nat>) returns (idx: int)
    requires lowerQuery != [] && pos <= |lowerText|
    requires Greedy(lowerText, lowerQuery, pos, ps)
    ensures idx == Index(lowerText[pos..], lowerQuery)
    ensures idx == -1 <==> ps == []
    ensures idx != -1 ==>
      && 0 <= idx && pos + idx + |lowerQuery| <= |lowerText|
      && ps[0] == pos + idx
      && Greedy(lowerText, lowerQuery, pos + idx + |lowerQuery|, ps[1..])
  {
    idx := Index(lowerText[pos..], lowerQuery);
    GreedyAdvance(lowerText, lowerQuery, pos, ps, idx);
  }

  /** One search of the loop, on the leftmost reading: nothing found means
      nothing is left; a find `idx` characters on is the reading's first
      position, and the reading goes on from the end of that match. */
  lemma GreedyAdvance(t: string, q: string, pos: nat, ps: seq<nat>, idx: int)
    requires q != [] && pos <= |t|
    requires Greedy(t, q, pos, ps)
    requires idx == Index(t[pos..], q)
    ensures idx == -1 ==> ps == []
    ensures idx != -1 ==>
      && 0 <= idx && pos + idx + |q| <= |t|
      && ps != [] && ps[0] == pos + idx
      && Greedy(t, q, pos + idx + |q|, ps[1..])
  {
    PositionsGreedy(t, q, pos);
    GreedyUnique(t, q, pos, ps, Positions(t, q, pos));
    PositionsAdvance(t, q, pos, idx);
    if idx != -1 {
      PositionsGreedy(t, q, pos + idx + |q|);
    }
  }

  /** One search of the loop, on the matches themselves. */
  lemma PositionsAdvance(t: string, q: string, pos: nat, idx: int)
    requires q != [] && pos <= |t|
    requires idx == Index(t[pos..], q)
    ensures idx == -1 ==> Positions(t, q, pos) == []
    ensures idx != -1 ==>
      && 0 <= idx && pos + idx + |q| <= |t|
      && Positions(t, q, pos) != []
      && Positions(t, q, pos)[0] == pos + idx
      && Positions(t, q, pos)[1..] == Positions(t, q, pos + idx + |q|)
  {
    PositionsStep(t, q, pos);
    if idx != -1 {
      PositionsNext(t, q, pos);
      assert ([pos + idx] + Positions(t, q, pos + idx + |q|))[1..] == Positions(t, q, pos + idx + |q|);
    }
  }

  /** The loop's output is the rendering of the text cut at the matches. */
  lemma {:induction false} HighlightedRender(text: string, ps: seq<nat>, len: nat, pos: nat, style: Style)
    requires Spaced(ps, len, pos, |text|)
    ensures Highlighted(text, ps, len, pos, style) == Render(CutAt(text, ps, len, pos), style)
    decreases |ps|
  {
    if ps != [] {
      var rest := CutAt(text, ps[1..], len, ps[0] + len);
      var span := Span(text[pos..ps[0]], text[ps[0]..ps[0] + len]);
      HighlightedRender(text, ps[1..], len, ps[0] + len, style);
      RenderSpansCons(span, rest.spans, style);
      var a := span.before + Wrap(style, span.matched);
      assert a + (RenderSpans(rest.spans, style) + rest.tail) == (a + RenderSpans(rest.spans, style)) + rest.tail;
    }
  }

  // ---------------------------------------------------------------------
  // Properties

  /** With a style that changes nothing, the loop gives back the text. */
  lemma {:induction false} HighlightedUnstyled(text: string, ps: seq<nat>, len: nat, pos: nat)
    requires Spaced(ps, len, pos, |text|)
    ensures Highlighted(text, ps, len, pos, Unstyled) == text[pos..]
    decreases |ps|
  {
    if ps != [] {
      HighlightedUnstyled(text, ps[1..], len, ps[0] + len);
      assert Wrap(Unstyled, text[ps[0]..ps[0] + len]) == text[ps[0]..ps[0] + len];
      SliceSplit(text, ps[0], ps[0] + len, |text|);
      SliceSplit(text, pos, ps[0], |text|);
    }
  }

  /** Highlighting only adds styling: with a style that changes nothing it
      gives back the text, and with an empty query it gives back the text
      whatever the style. */
  lemma HighlightIdentity(text: string, query: string, style: Style)
    ensures Render(Segments(text, query), Unstyled) == text
    ensures query == [] ==> Render(Segments(text, query), style) == text
  {
    if query != [] {
      var ps := Matches(text, query);
      PositionsSpaced(ToLower(text), ToLower(query), 0);
      HighlightedRender(text, ps, |query|, 0, Unstyled);
      HighlightedUnstyled(text, ps, |query|, 0);
    }
  }

  /** The cut has one span per position, and each span's match is the
      slice of the text at that position. */
  lemma {:induction false} CutMatches(text: string, ps: seq<nat>, len: nat, pos: nat)
    requires Spaced(ps, len, pos, |text|)
    ensures var spans := CutAt(text, ps, len, pos).spans;
      && |spans| == |ps|
      && forall k :: 0 <= k < |spans| ==> ps[k] + len <= |text| && spans[k].matched == text[ps[k]..ps[k] + len]
    decreases |ps|
  {
    if ps != [] {
      var rest := CutAt(text, ps[1..], len, ps[0] + len).spans;
      CutMatches(text, ps[1..], len, ps[0] + len);
      var spans := [Span(text[pos..ps[0]], text[ps[0]..ps[0] + len])] + rest;
      forall k | 0 < k < |spans|
        ensures ps[k] + len <= |text| && spans[k].matched == text[ps[k]..ps[k] + len]
      {
        assert spans[k] == rest[k - 1] && ps[k] == ps[1..][k - 1];
      }
    }
  }

  /** The styled parts are the matches `countMatches` counts, each the
      slice of the original text at that match. */
  lemma HighlightMarksMatches(text: string, query: string)
    requires query != []
    ensures var spans := Segments(text, query).spans;
      var ps := Matches(text, query);
      && |spans| == |ps|
      && forall k :: 0 <= k < |spans| ==> ps[k] + |query| <= |text| && spans[k].matched == text[ps[k]..ps[k] + |query|]
  {
    PositionsSpaced(ToLower(text), ToLower(query), 0);
    CutMatches(text, Matches(text, query), |query|, 0);
  }

  // ---------------------------------------------------------------------
  // runSearch

  /** What `runSearch` highlights for a result: its snippet, or the verse
      text when the snippet is empty. */
  function DisplayText(result: SearchResult): (r: string)
    ensures r == [] ==> result.snippet == [] && result.verse.text == []
    ensures result.snippet != [] ==> r == result.snippet
    ensures result.snippet == [] ==> r == result.verse.text
  {
    if result.snippet == [] then result.verse.text else result.snippet
  }

  /** The result loop of `runSearch`: one highlighted line per result, in
      order. */
  method HighlightResults(results: seq<SearchResult>, query: string, style: Style)
    returns (lines: seq<string>)
    ensures |lines| == |results|
    ensures forall i :: 0 <= i < |results| ==> lines[i] == Render(Segments(DisplayText(results[i]), query), style)
  {
    lines := [];
    for i := 0 to |results|
      invariant |lines| == i
      invariant forall j :: 0 <= j < i ==> lines[j] == Render(Segments(DisplayText(results[j]), query), style)
    {
      var snippet := results[i].snippet;
      if snippet == [] {
        snippet := results[i].verse.text;
      }
      var highlighted := HighlightSearchTerm(snippet, query, style);
      lines := lines + [highlighted];
    }
  }
}
