/** The structural parser of one chapter page (internal/parser/parser.go).

    The page is given as an already-built document tree: a node is text, an
    element with its tag, attributes and children, or some other node kind
    (a comment, a doctype) that carries no text.  The parser walks the
    children of the chapter container with a small mutable state (the verse
    list, the index of the current verse and a pending section title), then
    collapses the whitespace of every verse text. */
module HtmlParser {
  import opened Wrappers
  import opened TextUtil

  datatype Attr = Attr(key: string, val: string)

  datatype Node =
    | Text(data: string)
    | Element(tag: string, attrs: seq<Attr>, children: seq<Node>)
    | Comment(data: string)

  datatype Footnote = Footnote(marker: string, content: string)

  datatype Verse = Verse(number: int, text: string, sectionTitle: string, footnotes: seq<Footnote>)

  datatype ParseError = EmptyHtml | ContainerNotFound

  const Nbsp: char := '\U{00A0}'

  /** `hasClass`: some `class` attribute lists `name` among its space-separated words. */
  function HasClass(attrs: seq<Attr>, name: string): (r: bool)
    ensures r <==> exists i :: 0 <= i < |attrs| && attrs[i].key == "class" && name in Fields(attrs[i].val)
  {
    if attrs == [] then false
    else if attrs[0].key == "class" && name in Fields(attrs[0].val) then true
    else
      var r := HasClass(attrs[1..], name);
      assert forall i :: 1 <= i < |attrs| ==> attrs[i] == attrs[1..][i - 1];
      r
  }

  /** `hasStyleContaining`: some `style` attribute contains `substr`. */
  function HasStyleContaining(attrs: seq<Attr>, substr: string): (r: bool)
    ensures r <==> exists i :: 0 <= i < |attrs| && attrs[i].key == "style" && Contains(attrs[i].val, substr)
  {
    if attrs == [] then false
    else if attrs[0].key == "style" && Contains(attrs[0].val, substr) then true
    else
      var r := HasStyleContaining(attrs[1..], substr);
      assert forall i :: 1 <= i < |attrs| ==> attrs[i] == attrs[1..][i - 1];
      r
  }

  /** `collectText`: the text of every text node below `n`, in document order. */
  function CollectText(n: Node): string
    decreases n
  {
    match n
    case Text(d) => d
    case Comment(_) => ""
    case Element(_, _, ch) => CollectAll(ch)
  }

  function CollectAll(ns: seq<Node>): string
    decreases ns
  {
    if ns == [] then "" else CollectAll(ns[..|ns| - 1]) + CollectText(ns[|ns| - 1])
  }

  /** What the walk does with an element, decided by its tag and attributes
      in the order the source tests them. */
  datatype Role =
    | SectionTitle    // font.smallTitle: sets the pending title
    | Hidden          // font with display:none
    | VerseNumber     // span.number: opens a verse
    | FootnoteMarker  // a.comment: appends an empty footnote slot
    | FootnoteBody    // div.D2: fills a footnote slot
    | Ignored         // img, script
    | Container       // anything else: its children are walked

  function RoleOf(tag: string, attrs: seq<Attr>): Role {
    if tag == "font" && HasClass(attrs, "smallTitle") then SectionTitle
    else if tag == "font" && HasStyleContaining(attrs, "display:none") then Hidden
    else if tag == "span" && HasClass(attrs, "number") then VerseNumber
    else if tag == "a" && HasClass(attrs, "comment") then FootnoteMarker
    else if tag == "div" && HasClass(attrs, "D2") then FootnoteBody
    else if tag == "img" || tag == "script" then Ignored
    else Container
  }

  /** The number a `number` span stands for: its text without no-break
      spaces, trimmed, read as a decimal integer. */
  function SpanNumber(raw: string): (r: Option<int>)
    ensures r.Some? ==> MinInt64 <= r.value <= MaxInt64
  {
    Atoi(TrimSpace(RemoveChar(raw, Nbsp)))
  }

  /** The parse state as a value. */
  datatype State = State(verses: seq<Verse>, current: int, pendingTitle: string)

  const Initial: State := State([], -1, "")

  /** The current verse is always the last one, or -1 before the first. */
  predicate Inv(st: State) {
    st.current == |st.verses| - 1
  }

  predicate HasCurrent(st: State) {
    0 <= st.current < |st.verses|
  }

  /** `startVerse`: appends a verse carrying the pending title, clears that
      title and makes the new verse current. */
  function Started(st: State, num: int): (r: State)
    ensures |r.verses| == |st.verses| + 1 && r.verses[..|st.verses|] == st.verses
    ensures r.verses[|st.verses|] == Verse(num, "", st.pendingTitle, [])
    ensures r.current == |st.verses| && r.pendingTitle == "" && Inv(r)
  {
    State(st.verses + [Verse(num, "", st.pendingTitle, [])], |st.verses|, "")
  }

  /** The state with the current verse replaced by `f(current verse)`. */
  function UpdateCurrent(st: State, v: Verse): (r: State)
    requires HasCurrent(st)
    ensures |r.verses| == |st.verses| && r.verses[st.current] == v
    ensures forall i :: 0 <= i < |st.verses| && i != st.current ==> r.verses[i] == st.verses[i]
  {
    st.(verses := st.verses[st.current := v])
  }

  /** `addText`: appends to the current verse; dropped before the first verse. */
  function WithText(st: State, text: string): (r: State)
    ensures !HasCurrent(st) ==> r == st
    ensures HasCurrent(st) ==> r.current == st.current && r.pendingTitle == st.pendingTitle && |r.verses| == |st.verses|
    ensures HasCurrent(st) ==> r.verses[st.current] == st.verses[st.current].(text := st.verses[st.current].text + text)
    ensures forall i :: 0 <= i < |st.verses| && i != st.current ==> r.verses[i] == st.verses[i]
  {
    if HasCurrent(st) then
      var v := st.verses[st.current];
      UpdateCurrent(st, v.(text := v.text + text))
    else st
  }

  /** `addFootnoteMarker`: appends an empty footnote slot to the current
      verse; dropped before the first verse. */
  function WithMarker(st: State, marker: string): (r: State)
    ensures !HasCurrent(st) ==> r == st
    ensures HasCurrent(st) ==> r.current == st.current && r.pendingTitle == st.pendingTitle && |r.verses| == |st.verses|
    ensures HasCurrent(st) ==> r.verses[st.current] == st.verses[st.current].(footnotes := st.verses[st.current].footnotes + [Footnote(marker, "")])
    ensures forall i :: 0 <= i < |st.verses| && i != st.current ==> r.verses[i] == st.verses[i]
  {
    if HasCurrent(st) then
      var v := st.verses[st.current];
      UpdateCurrent(st, v.(footnotes := v.footnotes + [Footnote(marker, "")]))
    else st
  }

  /** Position of the last footnote whose content is still empty. */
  function LastEmpty(fs: seq<Footnote>): (r: Option<nat>)
    ensures r.Some? ==> r.value < |fs| && fs[r.value].content == ""
    ensures r.Some? ==> forall j :: r.value < j < |fs| ==> fs[j].content != ""
    ensures r.None? <==> forall j :: 0 <= j < |fs| ==> fs[j].content != ""
  {
    if fs == [] then None
    else if fs[|fs| - 1].content == "" then Some(|fs| - 1)
    else LastEmpty(fs[..|fs| - 1])
  }

  /** The footnotes with the last empty slot filled with `content`. */
  function Filled(fs: seq<Footnote>, content: string): (r: seq<Footnote>)
    ensures |r| == |fs|
    ensures LastEmpty(fs).None? ==> r == fs
    ensures LastEmpty(fs).Some? ==> r[LastEmpty(fs).value] == Footnote(fs[LastEmpty(fs).value].marker, content)
    ensures forall j :: 0 <= j < |fs| && Some(j) != LastEmpty(fs) ==> r[j] == fs[j]
  {
    match LastEmpty(fs)
    case None => fs
    case Some(k) => fs[k := fs[k].(content := content)]
  }

  /** `setFootnoteContent`: fills the last empty slot of the current verse;
      dropped before the first verse. */
  function WithContent(st: State, content: string): (r: State)
    ensures !HasCurrent(st) ==> r == st
    ensures HasCurrent(st) ==> r.current == st.current && r.pendingTitle == st.pendingTitle && |r.verses| == |st.verses|
    ensures HasCurrent(st) ==> r.verses[st.current] == st.verses[st.current].(footnotes := Filled(st.verses[st.current].footnotes, content))
    ensures forall i :: 0 <= i < |st.verses| && i != st.current ==> r.verses[i] == st.verses[i]
  {
    if HasCurrent(st) then
      var v := st.verses[st.current];
      UpdateCurrent(st, v.(footnotes := Filled(v.footnotes, content)))
    else st
  }

  /** What an element with a role other than `Container` does to the
      state, given the text collected below it. */
  function Handle(role: Role, text: string, st: State): State {
    match role
    case SectionTitle => st.(pendingTitle := TrimSpace(text))
    case VerseNumber =>
      (match SpanNumber(text)
       case Some(num) => Started(st, num)
       case None => st)
    case FootnoteMarker =>
      var marker := TrimSpace(text);
      if marker != "" then WithMarker(st, marker) else st
    case FootnoteBody =>
      var content := TrimSpace(text);
      if content != "" then WithContent(st, content) else st
    case _ => st
  }

  /** `walkNode` on values: what the walk does to the state. */
  function Walk(n: Node, st: State): State
    decreases n
  {
    match n
    case Text(d) => WithText(st, d)
    case Comment(_) => st
    case Element(tag, attrs, ch) =>
      var role := RoleOf(tag, attrs);
      if role == Container then WalkAll(ch, st) else Handle(role, CollectText(n), st)
  }

  /** The walk over a sequence of siblings, left to right. */
  function WalkAll(ns: seq<Node>, st: State): State
    decreases ns
  {
    if ns == [] then st else Walk(ns[|ns| - 1], WalkAll(ns[..|ns| - 1], st))
  }

  /** The verse numbers the walk opens, in document order: a reference
      definition independent of the parse state. */
  function Markers(n: Node): seq<int>
    decreases n
  {
    match n
    case Element(tag, attrs, ch) =>
      var role := RoleOf(tag, attrs);
      if role == Container then MarkersAll(ch)
      else if role == VerseNumber && SpanNumber(CollectText(n)).Some? then [SpanNumber(CollectText(n)).value]
      else []
    case _ => []
  }

  function MarkersAll(ns: seq<Node>): seq<int>
    decreases ns
  {
    if ns == [] then [] else MarkersAll(ns[..|ns| - 1]) + Markers(ns[|ns| - 1])
  }

  function Numbers(vs: seq<Verse>): (r: seq<int>)
    ensures |r| == |vs| && forall i :: 0 <= i < |vs| ==> r[i] == vs[i].number
  {
    seq(|vs|, i requires 0 <= i < |vs| => vs[i].number)
  }

  /** Earlier verses are kept: every verse before the current one is
      unchanged, and the current one keeps its number. */
  predicate Extends(st: State, r: State) {
    |st.verses| <= |r.verses|
    && (forall i :: 0 <= i < |st.verses| - 1 ==> r.verses[i] == st.verses[i])
    && (st.verses != [] ==> r.verses[|st.verses| - 1].number == st.verses[|st.verses| - 1].number)
  }

  /** `r` is reached from `st` keeping the invariant and earlier verses,
      and opening the verses numbered `added`, in order. */
  predicate Grows(st: State, r: State, added: seq<int>) {
    Inv(r) && Extends(st, r) && Numbers(r.verses) == Numbers(st.verses) + added
  }

  lemma GrowsTrans(a: State, b: State, c: State, x: seq<int>, y: seq<int>)
    requires Grows(a, b, x) && Grows(b, c, y)
    ensures Grows(a, c, x + y)
  {
  }

  lemma NumbersPrefix(a: seq<Verse>, b: seq<Verse>)
    requires |a| <= |b| && forall i :: 0 <= i < |a| ==> a[i].number == b[i].number
    ensures Numbers(b) == Numbers(a) + Numbers(b)[|a|..]
  {
  }

  /** A step that rewrites the current verse in place and keeps its number. */
  lemma InPlaceStep(st: State, r: State)
    requires Inv(st) && r.current == st.current && |r.verses| == |st.verses|
    requires forall i :: 0 <= i < |st.verses| && i != st.current ==> r.verses[i] == st.verses[i]
    requires HasCurrent(st) ==> r.verses[st.current].number == st.verses[st.current].number
    ensures Grows(st, r, [])
  {
  }

  /** Opening a verse appends its number. */
  lemma StartedStep(st: State, num: int)
    requires Inv(st)
    ensures Grows(st, Started(st, num), [num])
  {
  }

  /** A handled element keeps the invariant and earlier verses, and opens
      a verse exactly when it is a `number` span whose text reads as a number. */
  lemma HandleSpec(role: Role, text: string, st: State)
    requires Inv(st) && role != Container
    ensures Grows(st, Handle(role, text, st), if role == VerseNumber && SpanNumber(text).Some? then [SpanNumber(text).value] else [])
  {
    match role
    case VerseNumber =>
      if SpanNumber(text).Some? {
        StartedStep(st, SpanNumber(text).value);
      } else {
        InPlaceStep(st, st);
      }
    case FootnoteMarker =>
      InPlaceStep(st, WithMarker(st, TrimSpace(text)));
    case FootnoteBody =>
      InPlaceStep(st, WithContent(st, TrimSpace(text)));
    case _ =>
      InPlaceStep(st, Handle(role, text, st));
  }

  /** The walk keeps the invariant, only ever extends the verse list, and
      opens exactly the verses of `Markers(n)`, in order. */
  lemma {:induction false} WalkSpec(n: Node, st: State)
    requires Inv(st)
    ensures Grows(st, Walk(n, st), Markers(n))
    decreases n
  {
    match n
    case Text(d) =>
      InPlaceStep(st, WithText(st, d));
    case Comment(_) =>
      InPlaceStep(st, st);
    case Element(tag, attrs, ch) =>
      var role := RoleOf(tag, attrs);
      if role == Container {
        WalkAllSpec(ch, st);
      } else {
        HandleSpec(role, CollectText(n), st);
      }
  }

  lemma {:induction false} WalkAllSpec(ns: seq<Node>, st: State)
    requires Inv(st)
    ensures Grows(st, WalkAll(ns, st), MarkersAll(ns))
    decreases ns
  {
    if ns == [] {
      assert Numbers(st.verses) + [] == Numbers(st.verses);
    } else {
      var front := ns[..|ns| - 1];
      var mid := WalkAll(front, st);
      WalkAllSpec(front, st);
      WalkSpec(ns[|ns| - 1], mid);
      GrowsTrans(st, mid, WalkAll(ns, st), MarkersAll(front), Markers(ns[|ns| - 1]));
    }
  }

  /** Every verse text of `st` is unchanged in `r`, and any verse `r` adds
      has empty text. */
  predicate KeepsTexts(st: State, r: State) {
    |r.verses| >= |st.verses|
    && (forall i :: 0 <= i < |st.verses| ==> r.verses[i].text == st.verses[i].text)
    && (forall i :: |st.verses| <= i < |r.verses| ==> r.verses[i].text == "")
  }

  /** An element whose role is not `Container` is pruned: nothing below it
      reaches the text of any verse. */
  lemma PrunedAddsNoText(role: Role, text: string, st: State)
    requires role != Container
    ensures KeepsTexts(st, Handle(role, text, st))
  {
    match role
    case FootnoteMarker =>
      MarkerKeepsTexts(st, TrimSpace(text));
    case FootnoteBody =>
      ContentKeepsTexts(st, TrimSpace(text));
    case _ =>
  }

  lemma MarkerKeepsTexts(st: State, marker: string)
    ensures KeepsTexts(st, WithMarker(st, marker))
  {
  }

  lemma ContentKeepsTexts(st: State, content: string)
    ensures KeepsTexts(st, WithContent(st, content))
  {
  }

  /** A subtree without any element the walk treats specially. */
  predicate Plain(n: Node)
    decreases n
  {
    match n
    case Text(_) => true
    case Comment(_) => true
    case Element(tag, attrs, ch) => RoleOf(tag, attrs) == Container && PlainAll(ch)
  }

  predicate PlainAll(ns: seq<Node>)
    decreases ns
  {
    ns == [] || (PlainAll(ns[..|ns| - 1]) && Plain(ns[|ns| - 1]))
  }

  /** Walking a plain subtree appends exactly its collected text to the
      current verse and changes nothing else. */
  lemma {:induction false} WalkPlain(n: Node, st: State)
    requires Plain(n)
    ensures Walk(n, st) == WithText(st, CollectText(n))
    decreases n
  {
    match n
    case Text(_) =>
    case Comment(_) =>
      WithTextEmpty(st);
    case Element(_, _, ch) =>
      WalkAllPlain(ch, st);
  }

  lemma {:induction false} WalkAllPlain(ns: seq<Node>, st: State)
    requires PlainAll(ns)
    ensures WalkAll(ns, st) == WithText(st, CollectAll(ns))
    decreases ns
  {
    if ns == [] {
      WithTextEmpty(st);
    } else {
      var front := ns[..|ns| - 1];
      WalkAllPlain(front, st);
      WalkPlain(ns[|ns| - 1], WalkAll(front, st));
      WithTextTwice(st, CollectAll(front), CollectText(ns[|ns| - 1]));
    }
  }

  lemma WithTextEmpty(st: State)
    ensures WithText(st, "") == st
  {
    if HasCurrent(st) {
      var v := st.verses[st.current];
      assert v.text + "" == v.text;
    }
  }

  lemma WithTextTwice(st: State, a: string, b: string)
    ensures WithText(WithText(st, a), b) == WithText(st, a + b)
  {
    if HasCurrent(st) {
      var v := st.verses[st.current];
      assert v.text + a + b == v.text + (a + b);
    }
  }

  /** Whitespace in the sense of the source's `\s+` pattern. */
  predicate SpacePair(s: string, i: int)
    requires 0 <= i < |s| - 1
  {
    IsRegexSpace(s[i]) && IsRegexSpace(s[i + 1])
  }

  /** No two `\s` characters are adjacent. */
  predicate NoSpaceRuns(s: string) {
    forall i :: 0 <= i < |s| - 1 ==> !SpacePair(s, i)
  }

  /** The text after a leading run of `\s` characters. */
  function DropSpaceRun(s: string): (r: string)
    ensures |r| <= |s| && r == s[|s| - |r|..]
    ensures r == [] || !IsRegexSpace(r[0])
    decreases |s|
  {
    if s != [] && IsRegexSpace(s[0]) then DropSpaceRun(s[1..]) else s
  }

  /** `ReplaceAllString(text, " ")` with the pattern `\s+`: every maximal
      run of `\s` characters becomes one space. */
  function Collapse(s: string): (r: string)
    ensures s == [] <==> r == []
    ensures r != [] ==> (IsRegexSpace(r[0]) <==> IsRegexSpace(s[0]))
    ensures NoSpaceRuns(r)
    decreases |s|
  {
    if s == [] then []
    else if IsRegexSpace(s[0]) then
      var t := Collapse(DropSpaceRun(s[1..]));
      NoSpaceRunsCons(' ', t);
      " " + t
    else
      var t := Collapse(s[1..]);
      NoSpaceRunsCons(s[0], t);
      [s[0]] + t
  }

  lemma NoSpaceRunsCons(c: char, t: string)
    requires NoSpaceRuns(t) && (t == [] || !IsRegexSpace(c) || !IsRegexSpace(t[0]))
    ensures NoSpaceRuns([c] + t)
  {
    var s := [c] + t;
    forall i | 0 <= i < |s| - 1
      ensures !SpacePair(s, i)
    {
      if i > 0 {
        assert !SpacePair(t, i - 1);
        assert s[i] == t[i - 1] && s[i + 1] == t[i];
      }
    }
  }

  /** The whitespace normalisation applied to every verse text. */
  function Normalize(s: string): string {
    TrimSpace(Collapse(s))
  }

  /** A normalised text has no space at either end and no run of `\s`. */
  predicate Normalized(s: string) {
    (s == [] || (!IsSpace(s[0]) && !IsSpace(s[|s| - 1]))) && NoSpaceRuns(s)
  }

  lemma NoSpaceRunsSuffix(s: string, a: nat)
    requires NoSpaceRuns(s) && a <= |s|
    ensures NoSpaceRuns(s[a..])
  {
    var t := s[a..];
    forall i | 0 <= i < |t| - 1
      ensures !SpacePair(t, i)
    {
      assert !SpacePair(s, a + i);
      assert t[i] == s[a + i] && t[i + 1] == s[a + i + 1];
    }
  }

  lemma NoSpaceRunsPrefix(s: string, b: nat)
    requires NoSpaceRuns(s) && b <= |s|
    ensures NoSpaceRuns(s[..b])
  {
    var t := s[..b];
    forall i | 0 <= i < |t| - 1
      ensures !SpacePair(t, i)
    {
      assert !SpacePair(s, i);
    }
  }

  lemma NormalizeNormalized(s: string)
    ensures Normalized(Normalize(s))
  {
    var c := Collapse(s);
    var l := TrimLeft(c);
    NoSpaceRunsSuffix(c, |c| - |l|);
    NoSpaceRunsPrefix(l, |TrimRight(l)|);
  }

  /** The characters of `s` that are not spaces, in order. */
  function Solid(s: string): (r: string)
    decreases |s|
  {
    if s == [] then [] else (if IsSpace(s[0]) then [] else [s[0]]) + Solid(s[1..])
  }

  lemma {:induction false} SolidConcat(a: string, b: string)
    ensures Solid(a + b) == Solid(a) + Solid(b)
    decreases |a|
  {
    if a == [] {
      assert a + b == b;
    } else {
      var h := if IsSpace(a[0]) then [] else [a[0]];
      assert (a + b)[0] == a[0];
      assert (a + b)[1..] == a[1..] + b;
      SolidConcat(a[1..], b);
      calc {
        Solid(a + b);
        h + Solid(a[1..] + b);
        h + (Solid(a[1..]) + Solid(b));
        (h + Solid(a[1..])) + Solid(b);
      }
    }
  }

  lemma {:induction false} SolidSpaces(s: string)
    requires AllSpace(s)
    ensures Solid(s) == []
    decreases |s|
  {
    if s != [] {
      SolidSpaces(s[1..]);
    }
  }

  lemma {:induction false} SolidDropSpaceRun(s: string)
    ensures Solid(DropSpaceRun(s)) == Solid(s)
    decreases |s|
  {
    if s != [] && IsRegexSpace(s[0]) {
      SolidDropSpaceRun(s[1..]);
    }
  }

  lemma {:induction false} SolidCollapse(s: string)
    ensures Solid(Collapse(s)) == Solid(s)
    decreases |s|
  {
    if s != [] {
      if IsRegexSpace(s[0]) {
        var rest := DropSpaceRun(s[1..]);
        SolidCollapse(rest);
        SolidDropSpaceRun(s[1..]);
        SolidConcat(" ", Collapse(rest));
      } else {
        SolidCollapse(s[1..]);
        SolidConcat([s[0]], Collapse(s[1..]));
      }
    }
  }

  /** Dropping space characters at the front keeps the solid text. */
  lemma SolidTrimLeft(s: string)
    ensures Solid(TrimLeft(s)) == Solid(s)
  {
    var l := TrimLeft(s);
    var k := |s| - |l|;
    SplitAt(s, k);
    SolidConcat(s[..k], l);
    SolidSpaces(s[..k]);
  }

  lemma SolidTrimRight(s: string)
    ensures Solid(TrimRight(s)) == Solid(s)
  {
    var r := TrimRight(s);
    SplitAt(s, |r|);
    SolidConcat(r, s[|r|..]);
    SolidSpaces(s[|r|..]);
  }

  lemma SolidTrim(s: string)
    ensures Solid(TrimSpace(s)) == Solid(s)
  {
    SolidTrimLeft(s);
    SolidTrimRight(TrimLeft(s));
  }

  /** Normalisation changes only whitespace: the non-space characters of a
      verse text survive in order. */
  lemma NormalizeKeepsText(s: string)
    ensures Solid(Normalize(s)) == Solid(s)
  {
    SolidCollapse(s);
    SolidTrim(Collapse(s));
  }

  function NormalizeVerse(v: Verse): Verse {
    v.(text := Normalize(v.text))
  }

  function NormalizeAll(vs: seq<Verse>): (r: seq<Verse>)
    ensures |r| == |vs| && forall i :: 0 <= i < |vs| ==> r[i] == NormalizeVerse(vs[i])
  {
    seq(|vs|, i requires 0 <= i < |vs| => NormalizeVerse(vs[i]))
  }

  /** The verses of a chapter: the walk over the container's nodes followed
      by the normalisation of every text. */
  function Chapter(container: seq<Node>): seq<Verse> {
    NormalizeAll(WalkAll(container, Initial).verses)
  }

  lemma NormalizeAllPointwise(vs: seq<Verse>, orig: seq<Verse>)
    requires |vs| == |orig| && forall j :: 0 <= j < |vs| ==> vs[j] == NormalizeVerse(orig[j])
    ensures vs == NormalizeAll(orig)
  {
  }

  /** Normalisation keeps every verse's number and leaves every text normalised. */
  lemma NormalizeAllSpec(vs: seq<Verse>)
    ensures Numbers(NormalizeAll(vs)) == Numbers(vs)
    ensures forall i :: 0 <= i < |vs| ==> Normalized(NormalizeAll(vs)[i].text)
  {
    forall i | 0 <= i < |vs|
      ensures Normalized(NormalizeAll(vs)[i].text)
    {
      NormalizeNormalized(vs[i].text);
    }
  }

  /** The outcome of parsing a page: blank input and a missing container
      are errors, otherwise the chapter's verses. */
  function ParseOutcome(html: string, container: seq<Node>): Result<seq<Verse>, ParseError> {
    if AllSpace(html) then Err(EmptyHtml)
    else if container == [] then Err(ContainerNotFound)
    else Ok(Chapter(container))
  }

  /** The mutable parse state of the source. */
  class ParseState {
    var verses: seq<Verse>
    var current: int
    var pendingTitle: string

    function Snapshot(): State
      reads this
    {
      State(verses, current, pendingTitle)
    }

    constructor()
      ensures Snapshot() == Initial
    {
      verses := [];
      current := -1;
      pendingTitle := "";
    }

    method StartVerse(num: int)
      modifies this
      ensures Snapshot() == Started(old(Snapshot()), num)
    {
      var v := Verse(num, "", pendingTitle, []);
      pendingTitle := "";
      verses := verses + [v];
      current := |verses| - 1;
    }

    method AddText(text: string)
      modifies this
      ensures Snapshot() == WithText(old(Snapshot()), text)
    {
      if current >= 0 && current < |verses| {
        verses := verses[current := verses[current].(text := verses[current].text + text)];
      }
    }

    method AddFootnoteMarker(marker: string)
      modifies this
      ensures Snapshot() == WithMarker(old(Snapshot()), marker)
    {
      if current >= 0 && current < |verses| {
        var v := verses[current];
        verses := verses[current := v.(footnotes := v.footnotes + [Footnote(marker, "")])];
      }
    }

    /** Scans the current verse's footnotes from the last one down and fills
        the first empty slot it meets. */
    method SetFootnoteContent(content: string)
      modifies this
      ensures Snapshot() == WithContent(old(Snapshot()), content)
    {
      if current < 0 || current >= |verses| {
        return;
      }
      var v := verses[current];
      var i := |v.footnotes| - 1;
      while i >= 0
        invariant -1 <= i < |v.footnotes|
        invariant forall j :: i < j < |v.footnotes| ==> v.footnotes[j].content != ""
        invariant Snapshot() == old(Snapshot())
      {
        if v.footnotes[i].content == "" {
          assert LastEmpty(v.footnotes) == Some(i);
          verses := verses[current := v.(footnotes := v.footnotes[i := v.footnotes[i].(content := content)])];
          return;
        }
        i := i - 1;
      }
      assert LastEmpty(v.footnotes) == None;
    }

    /** The closing pass: collapses and trims the text of every verse. */
    method NormalizeTexts()
      modifies this
      ensures verses == NormalizeAll(old(verses))
      ensures current == old(current) && pendingTitle == old(pendingTitle)
    {
      var normalize := NormalizeVerse;
      for i := 0 to |verses|
        invariant |verses| == |old(verses)|
        invariant forall j :: 0 <= j < i ==> verses[j] == normalize(old(verses)[j])
        invariant forall j :: i <= j < |verses| ==> verses[j] == old(verses)[j]
        invariant current == old(current) && pendingTitle == old(pendingTitle)
      {
        verses := verses[i := normalize(verses[i])];
      }
      NormalizeAllPointwise(verses, old(verses));
    }
  }

  /** `walkNode`: dispatches on the element's role and recurses into the
      children of containers. */
  method WalkNode(n: Node, ps: ParseState)
    modifies ps
    ensures ps.Snapshot() == Walk(n, old(ps.Snapshot()))
    decreases n
  {
    match n
    case Text(d) =>
      ps.AddText(d);
    case Comment(_) =>
    case Element(tag, attrs, ch) =>
      var role := RoleOf(tag, attrs);
      if role == Container {
        WalkChildren(ch, ps);
      } else {
        HandleElement(role, CollectText(n), ps);
      }
  }

  /** The branches of `walkNode` for the elements it handles itself. */
  method HandleElement(role: Role, text: string, ps: ParseState)
    requires role != Container
    modifies ps
    ensures ps.Snapshot() == Handle(role, text, old(ps.Snapshot()))
  {
    match role
    case SectionTitle =>
      ps.pendingTitle := TrimSpace(text);
    case VerseNumber =>
      var num := SpanNumber(text);
      if num.Some? {
        ps.StartVerse(num.value);
      }
    case FootnoteMarker =>
      var marker := TrimSpace(text);
      if marker != "" {
        ps.AddFootnoteMarker(marker);
      }
    case FootnoteBody =>
      var content := TrimSpace(text);
      if content != "" {
        ps.SetFootnoteContent(content);
      }
    case Hidden =>
    case Ignored =>
  }

  /** The sibling loop of `walkNode`. */
  method WalkChildren(ns: seq<Node>, ps: ParseState)
    modifies ps
    ensures ps.Snapshot() == WalkAll(ns, old(ps.Snapshot()))
    decreases ns, 0
  {
    for i := 0 to |ns|
      invariant ps.Snapshot() == WalkAll(ns[..i], old(ps.Snapshot()))
    {
      assert ns[..i + 1][..i] == ns[..i];
      WalkNode(ns[i], ps);
    }
    assert ns[..|ns|] == ns;
  }

  /** `ParseChapterHTML`, from the page text and the nodes the container
      selector matched.  Blank input and a missing container are errors;
      otherwise the verses are those of `Chapter`. */
  method ParseChapterHTML(html: string, container: seq<Node>) returns (r: Result<seq<Verse>, ParseError>)
    ensures AllSpace(html) <==> r == Err(EmptyHtml)
    ensures !AllSpace(html) && container == [] ==> r == Err(ContainerNotFound)
    ensures r == ParseOutcome(html, container)
    ensures r.Ok? ==> Numbers(r.value) == MarkersAll(container)
    ensures r.Ok? ==> forall i :: 0 <= i < |r.value| ==> Normalized(r.value[i].text)
  {
    if TrimSpace(html) == "" {
      return Err(EmptyHtml);
    }
    if container == [] {
      return Err(ContainerNotFound);
    }
    var ps := new ParseState();
    WalkChildren(container, ps);
    ps.NormalizeTexts();
    WalkAllSpec(container, Initial);
    assert Numbers(Initial.verses) == [];
    NormalizeAllSpec(WalkAll(container, Initial).verses);
    return Ok(ps.verses);
  }
}
