/** Verse search over two backends: a ranked full-text index first, topped up
    from a plain substring scan when it yields few results, with duplicates
    dropped through a shared set of verse ids; plus the match counter and
    the snippet window shown with each result. The backends are inputs: the
    rows each would return, in its own order, and where reading them fails. */
module Search {
  import opened Wrappers
  import opened TextUtil

  // ---------------------------------------------------------------------
  // countMatches

  /** The start positions of the occurrences of `q` in `t` found scanning
      left to right from `pos`, each search resuming right after the
      previous match. */
  function Positions(t: string, q: string, pos: nat): seq<nat>
    requires q != [] && pos <= |t|
    decreases |t| - pos
  {
    var idx := IndexFrom(t, q, pos);
    if idx == -1 then [] else [idx as nat] + Positions(t, q, idx + |q|)
  }

  /** The case-insensitive matches of `query` in `text`. */
  function Matches(text: string, query: string): seq<nat>
    requires query != []
  {
    Positions(ToLower(text), ToLower(query), 0)
  }

  /** `countMatches`: the loop that searches the remaining text, counts a
      hit and resumes right after it. The query must be non-empty (every
      caller returns early on an empty query; with an empty one the loop
      would never advance). */
  method CountMatches(text: string, query: string) returns (count: nat)
    requires query != []
    ensures count == |Matches(text, query)|
  {
    var lowerText := ToLower(text);
    var lowerQuery := ToLower(query);
    count := CountLowered(lowerText, lowerQuery);
  }

  /** The loop of `countMatches`, on the lowered text and query. */
  method CountLowered(lowerText: string, lowerQuery: string) returns (count: nat)
    requires lowerQuery != []
    ensures count == |Positions(lowerText, lowerQuery, 0)|
  {
    count := 0;
    var pos: nat := 0;
    ghost var total := |Positions(lowerText, lowerQuery, 0)|;
    while true
      invariant pos <= |lowerText|
      invariant count + |Positions(lowerText, lowerQuery, pos)| == total
      decreases |lowerText| - pos
    {
      var found, next := NextMatch(lowerText, lowerQuery, pos);
      if !found {
        break;
      }
      count := count + 1;
      pos := next;
    }
  }

  /** One search of the `countMatches` loop: `strings.Index` on the rest of
      the text, and where the next search resumes when it found a match. */
  method NextMatch(t: string, q: string, pos: nat) returns (found: bool, next: nat)
    requires q != [] && pos <= |t|
    ensures !found ==> Positions(t, q, pos) == []
    ensures found ==> pos < next <= |t| && |Positions(t, q, pos)| == 1 + |Positions(t, q, next)|
  {
    var idx := Index(t[pos..], q);
    PositionsStep(t, q, pos);
    if idx == -1 {
      found, next := false, pos;
    } else {
      var n := pos + idx + |q|;
      assert |Positions(t, q, pos)| == 1 + |Positions(t, q, n)|;
      found, next := true, n;
    }
  }

  /** One round of the `countMatches` loop: searching the rest of the text
      either finds nothing, and no match is left, or finds the next match,
      `idx` characters on. */
  lemma PositionsStep(t: string, q: string, pos: nat)
    requires q != [] && pos <= |t|
    ensures var idx := Index(t[pos..], q);
      && (idx == -1 ==> Positions(t, q, pos) == [])
      && (idx != -1 ==> 0 <= idx && pos + idx + |q| <= |t|
                        && |Positions(t, q, pos)| == 1 + |Positions(t, q, pos + idx + |q|)|)
  {
    IndexSlice(t, q, pos);
    PositionsUnfold(t, q, pos);
  }

  lemma PositionsUnfold(t: string, q: string, pos: nat)
    requires q != [] && pos <= |t|
    ensures var found := IndexFrom(t, q, pos);
      && (found == -1 ==> Positions(t, q, pos) == [])
      && (found != -1 ==> Positions(t, q, pos) == [found as nat] + Positions(t, q, found + |q|))
  {
  }

  /** The same round, with the matches themselves: the next one is `idx`
      characters on. */
  lemma PositionsNext(t: string, q: string, pos: nat)
    requires q != [] && pos <= |t|
    ensures var idx := Index(t[pos..], q);
      idx != -1 ==> Positions(t, q, pos) == [pos + idx] + Positions(t, q, pos + idx + |q|)
  {
    IndexSlice(t, q, pos);
    PositionsUnfold(t, q, pos);
  }

  /** `ps` are starts of non-overlapping spans of length `len` in a text of
      length `n`, in order, from `pos` on. */
  predicate Spaced(ps: seq<nat>, len: nat, pos: nat, n: nat)
    decreases |ps|
  {
    if ps == [] then pos <= n
    else pos <= ps[0] && ps[0] + len <= n && Spaced(ps[1..], len, ps[0] + len, n)
  }

  lemma {:induction false} PositionsSpaced(t: string, q: string, pos: nat)
    requires q != [] && pos <= |t|
    ensures Spaced(Positions(t, q, pos), |q|, pos, |t|)
    decreases |t| - pos
  {
    PositionsUnfold(t, q, pos);
    var found := IndexFrom(t, q, pos);
    if found != -1 {
      PositionsSpaced(t, q, found + |q|);
      assert Positions(t, q, pos)[1..] == Positions(t, q, found + |q|);
    }
  }

  /** No occurrence of `q` starts in `lo`..`hi - 1`. */
  predicate NoneIn(t: string, q: string, lo: int, hi: int) {
    forall j :: lo <= j < hi ==> !OccursAt(t, q, j)
  }

  /** `ps` is the leftmost non-overlapping reading of `q` in `t` from
      `from`: its first position is an occurrence with none before it, and
      the rest reads on from the end of that occurrence; an empty reading
      means no occurrence at all from `from` on. */
  ghost predicate Greedy(t: string, q: string, from: nat, ps: seq<nat>)
    decreases |ps|
  {
    if ps == [] then NoneIn(t, q, from, |t| + 1)
    else
      && from <= ps[0]
      && OccursAt(t, q, ps[0])
      && NoneIn(t, q, from, ps[0])
      && Greedy(t, q, ps[0] + |q|, ps[1..])
  }

  /** The scan finds the leftmost occurrences, never overlapping. */
  lemma {:induction false} PositionsGreedy(t: string, q: string, pos: nat)
    requires q != [] && pos <= |t|
    ensures Greedy(t, q, pos, Positions(t, q, pos))
    decreases |t| - pos
  {
    var idx := IndexFrom(t, q, pos);
    IndexFromSpec(t, q, pos);
    if idx != -1 {
      PositionsGreedy(t, q, idx + |q|);
      var ps := Positions(t, q, pos);
      assert ps[1..] == Positions(t, q, idx + |q|);
    }
  }

  /** A leftmost non-overlapping reading is unique: the scan's is the only
      one. */
  lemma {:induction false} GreedyUnique(t: string, q: string, from: nat, ps1: seq<nat>, ps2: seq<nat>)
    requires q != []
    requires Greedy(t, q, from, ps1) && Greedy(t, q, from, ps2)
    ensures ps1 == ps2
    decreases |ps1|
  {
    if ps1 != [] && ps2 != [] && ps1[0] == ps2[0] {
      GreedyUnique(t, q, ps1[0] + |q|, ps1[1..], ps2[1..]);
      assert ps1 == [ps1[0]] + ps1[1..];
      assert ps2 == [ps2[0]] + ps2[1..];
    }
  }

  /** Matches are exactly the leftmost non-overlapping case-insensitive
      occurrences. */
  lemma MatchesAreGreedy(text: string, query: string, ps: seq<nat>)
    requires query != []
    ensures Greedy(ToLower(text), ToLower(query), 0, ps) <==> ps == Matches(text, query)
  {
    PositionsGreedy(ToLower(text), ToLower(query), 0);
    if Greedy(ToLower(text), ToLower(query), 0, ps) {
      GreedyUnique(ToLower(text), ToLower(query), 0, ps, Matches(text, query));
    }
  }

  /** Counting ignores ASCII case in both the text and the query. */
  lemma MatchesIgnoreCase(text: string, query: string)
    requires query != []
    ensures Matches(ToLower(text), query) == Matches(text, query)
    ensures Matches(text, ToLower(query)) == Matches(text, query)
  {
    ToLowerIdempotent(text);
    ToLowerIdempotent(query);
  }

  /** Occurrences do not overlap: "aa" occurs once in "aaa". */
  lemma MatchesExample()
    ensures |Matches("aaa", "aa")| == 1
  {
    var t, q := ToLower("aaa"), ToLower("aa");
    assert t == "aaa" && q == "aa";
    assert t[0..2] == q;
    assert OccursAt(t, q, 0);
    assert IndexFrom(t, q, 0) == 0;
    assert IndexFrom(t, q, 2) == -1;
  }

  // ---------------------------------------------------------------------
  // generateSnippet

  function Ellipsis(cut: bool): string {
    if cut then "..." else ""
  }

  /** `generateSnippet`: a window of `text` around the first
      case-insensitive match of `query`, or the start of the text when
      there is none. */
  function GenerateSnippet(text: string, query: string, contextChars: nat): string {
    var pos := Index(ToLower(text), ToLower(query));
    if pos == -1 then
      if |text| > contextChars * 2 then text[..contextChars * 2] + "..." else text
    else
      assert |ToLower(text)| == |text| && |ToLower(query)| == |query|;
      Window(text, pos, |query|, contextChars)
  }

  /** The window from `contextChars` before `pos` to `contextChars` after
      the `len` characters there, clipped to the text, with "..." on each
      side that was cut. */
  function Window(text: string, pos: nat, len: nat, contextChars: nat): string
    requires pos + len <= |text|
  {
    var start := WindowStart(pos, contextChars);
    var end := WindowEnd(|text|, pos + len, contextChars);
    Ellipsis(start > 0) + text[start..end] + Ellipsis(end < |text|)
  }

  function WindowStart(pos: nat, contextChars: nat): (start: nat)
    ensures start <= pos
  {
    if pos < contextChars then 0 else pos - contextChars
  }

  function WindowEnd(size: nat, spanEnd: nat, contextChars: nat): (end: nat)
    requires spanEnd <= size
    ensures spanEnd <= end <= size
  {
    if spanEnd + contextChars > size then size else spanEnd + contextChars
  }

  /** Without a match the snippet is the text itself when it is at most
      `2 * contextChars` long, and otherwise its first `2 * contextChars`
      characters followed by "...". */
  lemma SnippetWithoutMatch(text: string, query: string, contextChars: nat)
    requires Index(ToLower(text), ToLower(query)) == -1
    ensures var r := GenerateSnippet(text, query, contextChars);
      && |r| <= 2 * contextChars + 3
      && (|text| <= 2 * contextChars ==> r == text)
      && (|text| > 2 * contextChars ==> r[..|r| - 3] == text[..2 * contextChars] && r[|r| - 3..] == "...")
  {
  }

  lemma SliceOfSlice(s: string, a: nat, b: nat, i: nat, j: nat)
    requires a <= b <= |s| && i <= j <= b - a
    ensures s[a..b][i..j] == s[a + i..a + j]
  {
    assert forall k :: 0 <= k < j - i ==> s[a..b][i..j][k] == s[a + i + k];
  }

  /** `pat` at `i` in `m` is still there, shifted, once `m` is framed. */
  lemma OccursFramed(a: string, m: string, b: string, pat: string, i: int)
    requires OccursAt(m, pat, i)
    ensures OccursAt(a + m + b, pat, |a| + i)
  {
    assert (a + m + b)[|a| + i..|a| + i + |pat|] == m[i..i + |pat|];
  }

  /** The span at `pos` lies inside the window, at most `contextChars`
      characters and an ellipsis into it. */
  lemma WindowShowsSpan(text: string, pos: nat, len: nat, contextChars: nat)
    requires pos + len <= |text|
    ensures OccursAt(Window(text, pos, len, contextChars), text[pos..pos + len],
                     if pos <= contextChars then pos else 3 + contextChars)
  {
    var start := WindowStart(pos, contextChars);
    var end := WindowEnd(|text|, pos + len, contextChars);
    var pre, mid, post := Ellipsis(start > 0), text[start..end], Ellipsis(end < |text|);
    assert Window(text, pos, len, contextChars) == pre + mid + post;
    WindowOffset(pos, contextChars);
    SpanInSlice(text, start, end, pos, len);
    OccursFramed(pre, mid, post, text[pos..pos + len], pos - start);
  }

  /** Where the span starts in the window: after the leading ellipsis and the
      context kept before it. */
  lemma WindowOffset(pos: nat, contextChars: nat)
    ensures var start := WindowStart(pos, contextChars);
      |Ellipsis(start > 0)| + (pos - start) == if pos <= contextChars then pos else 3 + contextChars
  {
  }

  /** The span at `pos` is found in any slice `start..end` around it. */
  lemma SpanInSlice(text: string, start: nat, end: nat, pos: nat, len: nat)
    requires start <= pos && pos + len <= end <= |text|
    ensures OccursAt(text[start..end], text[pos..pos + len], pos - start)
  {
    SliceOfSlice(text, start, end, pos - start, pos - start + len);
  }

  /** The window is at most the span plus twice the context plus two
      ellipses long, and never longer than the text plus two ellipses. */
  lemma WindowLength(text: string, pos: nat, len: nat, contextChars: nat)
    requires pos + len <= |text|
    ensures |Window(text, pos, len, contextChars)| <= len + 2 * contextChars + 6
    ensures |Window(text, pos, len, contextChars)| <= |text| + 6
  {
  }

  /** The snippet of a matching text shows the whole first match in the
      text's own case. */
  lemma SnippetShowsMatch(text: string, query: string, contextChars: nat)
    requires Index(ToLower(text), ToLower(query)) != -1
    ensures var pos := Index(ToLower(text), ToLower(query));
      && 0 <= pos && pos + |query| <= |text|
      && GenerateSnippet(text, query, contextChars) == Window(text, pos, |query|, contextChars)
  {
    assert |ToLower(text)| == |text| && |ToLower(query)| == |query|;
  }

  // ---------------------------------------------------------------------
  // SearchVerses

  /** A row a backend returns: the verse id and text, and for the full-text
      index its own highlighted snippet. */
  datatype Row = Row(id: int, text: string, snippet: string)

  datatype SearchResult = SearchResult(verse: Row, snippet: string, matchCount: nat)

  /** One backend: every row matching the query, in the backend's order
      (rank for the full-text index, canonical order for the substring
      scan), and where reading fails, if it does: `Some(0)` for a query
      that fails outright, `Some(k)` for a row `k` that cannot be read, and
      any `k` past the last row delivered for an error reported after
      them. */
  datatype Backend = Backend(rows: seq<Row>, failAt: Option<nat>)

  /** The contextChars of the substring backend's snippets. */
  const SnippetContext: nat := 30

  /** The minimum result count below which full-text results are topped up. */
  const MinResults: nat := 5

  /** SQL `LIMIT n`: the first `n` rows; a negative `n` sets no limit. */
  function Limit(rows: seq<Row>, n: int): (r: seq<Row>)
    ensures n >= 0 ==> |r| <= n
    ensures |r| <= |rows| && r == rows[..|r|]
  {
    if n < 0 || n >= |rows| then rows else rows[..n]
  }

  /** The rows a backend delivers under `LIMIT n` before it fails. */
  function Delivered(b: Backend, n: int): (r: seq<Row>)
    ensures n >= 0 ==> |r| <= n
    ensures |r| <= |b.rows| && r == b.rows[..|r|]
  {
    var rows := Limit(b.rows, n);
    if b.failAt.Some? && b.failAt.value < |rows| then rows[..b.failAt.value] else rows
  }

  /** The result a kept row gives: the index's own snippet, or one cut
      around the first match for the substring scan; and the match count. */
  function ResultOf(row: Row, query: string, fromIndex: bool): SearchResult
    requires query != []
  {
    SearchResult(row, if fromIndex then row.snippet else GenerateSnippet(row.text, query, SnippetContext),
                 |Matches(row.text, query)|)
  }

  /** The de-duplication in the row loop of `searchFTS` / `searchLIKE`:
      rows whose id is already seen are skipped; every other row is kept
      and its id marked seen. */
  function Fresh(rows: seq<Row>, seen: set<int>): (r: (seq<Row>, set<int>))
    ensures seen <= r.1 && |r.0| <= |rows|
  {
    if rows == [] then ([], seen)
    else
      var front := Fresh(rows[..|rows| - 1], seen);
      var row := rows[|rows| - 1];
      if row.id in front.1 then front else (front.0 + [row], front.1 + {row.id})
  }

  /** The results the kept rows give, in order. */
  function ToResults(rows: seq<Row>, query: string, fromIndex: bool): (r: seq<SearchResult>)
    requires query != []
    ensures |r| == |rows| && forall i :: 0 <= i < |rows| ==> r[i].verse == rows[i]
    ensures forall i :: 0 <= i < |rows| ==>
      && r[i].snippet == (if fromIndex then rows[i].snippet else GenerateSnippet(rows[i].text, query, SnippetContext))
      && r[i].matchCount == |Matches(rows[i].text, query)|
  {
    seq(|rows|, i requires 0 <= i < |rows| => ResultOf(rows[i], query, fromIndex))
  }

  /** The rows `SearchVerses` keeps, as (full-text rows, substring rows):
      the full-text rows, topped up with `limit - len` more substring rows
      when fewer than 5 and fewer than `limit`; when the full-text query
      fails, the substring rows alone. A backend that fails contributes
      nothing, but the ids it read before failing stay seen. */
  function Pick(limit: int, fts: Backend, like: Backend): (seq<Row>, seq<Row>) {
    var f := Fresh(Delivered(fts, limit), {});
    if fts.failAt.Some? then
      var l := Fresh(Delivered(like, limit), f.1);
      ([], if like.failAt.None? then l.0 else [])
    else if |f.0| < MinResults && |f.0| < limit then
      var l := Fresh(Delivered(like, limit - |f.0|), f.1);
      (f.0, if like.failAt.None? then l.0 else [])
    else (f.0, [])
  }

  /** `SearchVerses`: nothing for an empty query; otherwise the results of
      the picked rows, full-text ones first with the index's snippets. It
      never fails. */
  function SearchSpec(query: string, limit: int, fts: Backend, like: Backend): seq<SearchResult> {
    if query == [] then []
    else
      var p := Pick(limit, fts, like);
      ToResults(p.0, query, true) + ToResults(p.1, query, false)
  }

  /** The row loop shared by `searchFTS` and `searchLIKE`, stopping at a
      row that cannot be read; `ok` is false when the backend failed. */
  method ScanRows(b: Backend, n: int, query: string, fromIndex: bool, seen: set<int>)
    returns (results: seq<SearchResult>, seen': set<int>, ok: bool, ghost kept: seq<Row>)
    requires query != []
    ensures (kept, seen') == Fresh(Delivered(b, n), seen)
    ensures results == ToResults(kept, query, fromIndex)
    ensures ok == b.failAt.None?
  {
    var rows := Delivered(b, n);
    results, seen' := [], seen;
    kept := [];
    for i := 0 to |rows|
      invariant (kept, seen') == Fresh(rows[..i], seen)
      invariant results == ToResults(kept, query, fromIndex)
    {
      var row := rows[i];
      assert rows[..i + 1][..i] == rows[..i];
      if row.id in seen' {
        continue;
      }
      seen' := seen' + {row.id};
      var snippet := row.snippet;
      if !fromIndex {
        snippet := GenerateSnippet(row.text, query, SnippetContext);
      }
      var matchCount := CountMatches(row.text, query);
      results := results + [SearchResult(row, snippet, matchCount)];
      assert results == ToResults(kept + [row], query, fromIndex);
      assert (kept + [row])[..|kept|] == kept;
      kept := kept + [row];
    }
    assert rows[..|rows|] == rows;
    ok := b.failAt.None?;
  }

  method SearchVerses(query: string, limit: int, fts: Backend, like: Backend) returns (results: seq<SearchResult>)
    ensures results == SearchSpec(query, limit, fts, like)
  {
    if query == [] {
      return [];
    }
    ghost var p := Pick(limit, fts, like);
    var seen: set<int> := {};
    var ftsResults, ok;
    ghost var ftsKept, likeKept;
    ftsResults, seen, ok, ftsKept := ScanRows(fts, limit, query, true, seen);
    if !ok {
      var likeResults, likeOk;
      likeResults, seen, likeOk, likeKept := ScanRows(like, limit, query, false, seen);
      assert ToResults([], query, true) == [];
      if !likeOk {
        assert p == ([], []);
        return [];
      }
      assert p == ([], likeKept);
      assert [] + likeResults == likeResults;
      return likeResults;
    }
    results := ftsResults;
    if |results| < MinResults && |results| < limit {
      var remaining := limit - |results|;
      var likeResults, likeOk;
      likeResults, seen, likeOk, likeKept := ScanRows(like, remaining, query, false, seen);
      if !likeOk {
        assert p == (ftsKept, []);
        assert ToResults([], query, false) == [];
        assert results + [] == results;
        return results;
      }
      assert p == (ftsKept, likeKept);
      results := results + likeResults;
    } else {
      assert p == (ftsKept, []);
      assert ToResults([], query, false) == [];
      assert results + [] == results;
    }
  }

  // ---------------------------------------------------------------------
  // Properties of SearchVerses

  predicate DistinctRows(rows: seq<Row>) {
    forall i, j :: 0 <= i < j < |rows| ==> rows[i].id != rows[j].id
  }

  predicate DistinctIds(rs: seq<SearchResult>) {
    forall i, j :: 0 <= i < j < |rs| ==> rs[i].verse.id != rs[j].verse.id
  }

  function IdsOf(rows: seq<Row>): set<int> {
    set row | row in rows :: row.id
  }

  /** De-duplication keeps rows of the input with distinct ids never seen
      before, and afterwards every id read counts as seen. */
  lemma {:induction false} FreshSound(rows: seq<Row>, seen: set<int>)
    ensures var k := Fresh(rows, seen);
      && DistinctRows(k.0)
      && (forall i :: 0 <= i < |k.0| ==> k.0[i] in rows && k.0[i].id !in seen && k.0[i].id in k.1)
      && k.1 == seen + IdsOf(rows)
  {
    if rows != [] {
      var init := rows[..|rows| - 1];
      var last := rows[|rows| - 1];
      FreshSound(init, seen);
      assert rows == init + [last];
      assert IdsOf(rows) == IdsOf(init) + {last.id};
    }
  }

  /** De-duplication loses no id: every row read whose id was not seen
      before has a kept row with the same id. */
  lemma {:induction false} FreshComplete(rows: seq<Row>, seen: set<int>)
    ensures var k := Fresh(rows, seen);
      forall i :: 0 <= i < |rows| && rows[i].id !in seen ==> rows[i].id in IdsOf(k.0)
  {
    if rows != [] {
      var init := rows[..|rows| - 1];
      FreshComplete(init, seen);
      FreshSound(init, seen);
      var front := Fresh(init, seen);
      var k := Fresh(rows, seen);
      forall i | 0 <= i < |rows| && rows[i].id !in seen
        ensures rows[i].id in IdsOf(k.0)
      {
        if i < |init| {
          assert init[i] == rows[i];
        }
        assert forall x :: x in front.0 ==> x in k.0;
      }
    }
  }

  lemma ToResultsDistinct(rows: seq<Row>, query: string, fromIndex: bool)
    requires query != [] && DistinctRows(rows)
    ensures DistinctIds(ToResults(rows, query, fromIndex))
  {
    var r := ToResults(rows, query, fromIndex);
    assert forall i :: 0 <= i < |r| ==> r[i].verse.id == rows[i].id;
  }

  /** Two runs of distinct ids stay distinct together when every id of the
      first is in `seen` and none of the second is. */
  lemma AppendDistinct(a: seq<Row>, b: seq<Row>, seen: set<int>)
    requires DistinctRows(a) && DistinctRows(b)
    requires forall i :: 0 <= i < |a| ==> a[i].id in seen
    requires forall i :: 0 <= i < |b| ==> b[i].id !in seen
    ensures DistinctRows(a + b)
  {
    forall i, j | 0 <= i < j < |a + b|
      ensures (a + b)[i].id != (a + b)[j].id
    {
      if j >= |a| && i < |a| {
        assert (a + b)[i] == a[i] && (a + b)[j] == b[j - |a|];
      }
    }
  }

  /** The full-text rows picked, and the seen set they leave. */
  function FtsPass(limit: int, fts: Backend): (seq<Row>, set<int>) {
    Fresh(Delivered(fts, limit), {})
  }

  /** The substring rows the second pass reads, whatever is then kept. */
  function LikePass(limit: int, fts: Backend, like: Backend): (seq<Row>, set<int>) {
    var f := FtsPass(limit, fts);
    Fresh(Delivered(like, if fts.failAt.Some? then limit else limit - |f.0|), f.1)
  }

  /** The shape of the picked rows: the full-text rows, unless that query
      failed; substring rows only when the full-text query failed or gave
      fewer than `MinResults` (5) rows and fewer than `limit`, and then
      always, unless the substring query fails too. */
  lemma PickShape(limit: int, fts: Backend, like: Backend)
    ensures var p := Pick(limit, fts, like);
      && (fts.failAt.None? ==> p.0 == FtsPass(limit, fts).0)
      && (fts.failAt.Some? ==> p.0 == [])
      && (p.1 == [] || p.1 == LikePass(limit, fts, like).0)
      && (like.failAt.Some? ==> p.1 == [])
      && (fts.failAt.None? && p.1 != [] ==> |p.0| < MinResults && |p.0| < limit)
      && (fts.failAt.None? && |p.0| < MinResults && |p.0| < limit && like.failAt.None? ==>
            p.1 == LikePass(limit, fts, like).0)
      && (fts.failAt.Some? && like.failAt.None? ==> p.1 == LikePass(limit, fts, like).0)
  {
  }

  /** The picked rows are distinct, and at most `limit` when it is not
      negative. */
  lemma PickDistinct(limit: int, fts: Backend, like: Backend)
    ensures var p := Pick(limit, fts, like);
      && DistinctRows(p.0 + p.1)
      && (limit >= 0 ==> |p.0 + p.1| <= limit)
  {
    PickShape(limit, fts, like);
    PickRowsDistinct(limit, fts, like);
  }

  lemma PickRowsDistinct(limit: int, fts: Backend, like: Backend)
    ensures var p := Pick(limit, fts, like); DistinctRows(p.0 + p.1)
  {
    var p := Pick(limit, fts, like);
    var f := Fresh(Delivered(fts, limit), {});
    FreshSound(Delivered(fts, limit), {});
    if fts.failAt.Some? {
      FreshSound(Delivered(like, limit), f.1);
      assert p.0 + p.1 == p.1;
    } else if |f.0| < MinResults && |f.0| < limit {
      var l := Fresh(Delivered(like, limit - |f.0|), f.1);
      FreshSound(Delivered(like, limit - |f.0|), f.1);
      if p.1 == [] {
        assert p.0 + p.1 == p.0;
      } else {
        assert p.0 == f.0 && p.1 == l.0;
        AppendDistinct(f.0, l.0, f.1);
      }
    } else {
      assert p.0 + p.1 == p.0;
    }
  }

  /** Each picked row comes from the backend it is listed under. */
  lemma PickProvenance(limit: int, fts: Backend, like: Backend)
    ensures var p := Pick(limit, fts, like);
      && (forall i :: 0 <= i < |p.0| ==> p.0[i] in fts.rows)
      && (forall i :: 0 <= i < |p.1| ==> p.1[i] in like.rows)
  {
    var f := FtsPass(limit, fts);
    var n := if fts.failAt.Some? then limit else limit - |f.0|;
    PickShape(limit, fts, like);
    FreshSound(Delivered(fts, limit), {});
    FreshSound(Delivered(like, n), f.1);
    DeliveredFrom(fts, limit);
    DeliveredFrom(like, n);
  }

  lemma DeliveredFrom(b: Backend, n: int)
    ensures forall x :: x in Delivered(b, n) ==> x in b.rows
  {
  }

  /** After a failed full-text query, only substring rows are picked, none
      of them a row that query had read. */
  lemma PickFallback(limit: int, fts: Backend, like: Backend)
    requires fts.failAt.Some?
    ensures var p := Pick(limit, fts, like);
      p.0 == [] && forall i :: 0 <= i < |p.1| ==> p.1[i].id !in IdsOf(Delivered(fts, limit))
  {
    var f := FtsPass(limit, fts);
    PickShape(limit, fts, like);
    FreshSound(Delivered(fts, limit), {});
    FreshSound(Delivered(like, limit), f.1);
  }

  /** The results are those of the picked rows, in order: a full-text row
      carries the index's snippet, a substring row the window cut around its
      first match, and each its count of matches. */
  lemma SearchRows(query: string, limit: int, fts: Backend, like: Backend)
    requires query != []
    ensures var p := Pick(limit, fts, like);
      var rs := SearchSpec(query, limit, fts, like);
      && |rs| == |p.0 + p.1|
      && (forall k :: 0 <= k < |rs| ==> rs[k].verse == (p.0 + p.1)[k])
      && (forall k :: 0 <= k < |rs| ==> rs[k].matchCount == |Matches(rs[k].verse.text, query)|)
      && (forall k :: 0 <= k < |p.0| ==> rs[k].snippet == p.0[k].snippet)
      && (forall k :: |p.0| <= k < |rs| ==> rs[k].snippet == GenerateSnippet(rs[k].verse.text, query, SnippetContext))
  {
    var p := Pick(limit, fts, like);
    ResultsOfRows(query, p.0, p.1);
  }

  /** `SearchRows` for any full-text rows `f` and substring rows `l`. */
  lemma ResultsOfRows(query: string, f: seq<Row>, l: seq<Row>)
    requires query != []
    ensures var rs := ToResults(f, query, true) + ToResults(l, query, false);
      && |rs| == |f + l|
      && (forall k :: 0 <= k < |rs| ==> rs[k].verse == (f + l)[k])
      && (forall k :: 0 <= k < |rs| ==> rs[k].matchCount == |Matches(rs[k].verse.text, query)|)
      && (forall k :: 0 <= k < |f| ==> rs[k].snippet == f[k].snippet)
      && (forall k :: |f| <= k < |rs| ==> rs[k].snippet == GenerateSnippet(rs[k].verse.text, query, SnippetContext))
  {
    var a, b := ToResults(f, query, true), ToResults(l, query, false);
    var rs := a + b;
    forall k | 0 <= k < |rs|
      ensures rs[k] == ResultOf((f + l)[k], query, k < |f|)
    {
      if k < |a| {
        assert rs[k] == a[k];
      } else {
        assert rs[k] == b[k - |a|];
      }
    }
  }
  /** No verse appears twice in the results. */
  lemma SearchDistinct(query: string, limit: int, fts: Backend, like: Backend)
    ensures DistinctIds(SearchSpec(query, limit, fts, like))
  {
    if query != [] {
      PickDistinct(limit, fts, like);
      SearchRows(query, limit, fts, like);
    }
  }

  /** With a non-negative limit, there are at most `limit` results. */
  lemma SearchWithinLimit(query: string, limit: int, fts: Backend, like: Backend)
    requires limit >= 0
    ensures |SearchSpec(query, limit, fts, like)| <= limit
  {
    if query != [] {
      PickDistinct(limit, fts, like);
      SearchRows(query, limit, fts, like);
    }
  }

  /** Every result is a row of one of the two backends. */
  lemma SearchProvenance(query: string, limit: int, fts: Backend, like: Backend)
    ensures var rs := SearchSpec(query, limit, fts, like);
      forall k :: 0 <= k < |rs| ==> rs[k].verse in fts.rows || rs[k].verse in like.rows
  {
    if query != [] {
      PickProvenance(limit, fts, like);
      SearchRows(query, limit, fts, like);
      var p := Pick(limit, fts, like);
      assert forall k :: |p.0| <= k < |p.0 + p.1| ==> (p.0 + p.1)[k] == p.1[k - |p.0|];
    }
  }

  /** When the full-text query fails after reading some rows, those rows
      stay marked seen, so the substring fallback leaves out every verse the
      failed query had already read. */
  lemma FallbackSkipsRead(query: string, limit: int, fts: Backend, like: Backend)
    requires fts.failAt.Some?
    ensures var rs := SearchSpec(query, limit, fts, like);
      forall k :: 0 <= k < |rs| ==> rs[k].verse.id !in IdsOf(Delivered(fts, limit))
  {
    if query != [] {
      PickFallback(limit, fts, like);
      SearchRows(query, limit, fts, like);
    }
  }
}
