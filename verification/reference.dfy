/** Parsing of human-typed references such as "창세기 1:3-5", "창 1" or
    "Gen 1:1": a book part, whitespace, a chapter and an optional verse or
    verse range, resolved against the book catalog. */
module BibleRef {
  import opened Wrappers
  import opened TextUtil
  import opened Books

  datatype Reference = Reference(bookCode: string, chapter: int, verseStart: int, verseEnd: int)

  /** Why a reference was refused. */
  datatype RefError =
    | EmptyReference
    | InvalidFormat
    | UnknownBook
    | InvalidChapter
    | ChapterOutOfRange
    | InvalidVerse
    | VerseNotPositive
    | EndBeforeStart

  /** The captures after the book part: chapter digits, then the optional
      start verse and end verse digits ("" when absent). */
  datatype Tail = Tail(chapter: string, verseStart: string, verseEnd: string)

  predicate AllRegexSpace(s: string) {
    forall i :: 0 <= i < |s| ==> IsRegexSpace(s[i])
  }

  /** Length of the leading run of `\s` characters. */
  function SpaceRun(s: string): (n: nat)
    ensures n <= |s| && AllRegexSpace(s[..n])
    ensures n == |s| || !IsRegexSpace(s[n])
  {
    if s != [] && IsRegexSpace(s[0]) then
      var m := SpaceRun(s[1..]);
      assert s[..1 + m] == [s[0]] + s[1..][..m];
      1 + m
    else 0
  }

  /** Length of the leading run of decimal digits. */
  function DigitRun(s: string): (n: nat)
    ensures n <= |s| && AllDigits(s[..n])
    ensures n == |s| || !IsDigit(s[n])
  {
    if s != [] && IsDigit(s[0]) then
      var m := DigitRun(s[1..]);
      assert s[..1 + m] == [s[0]] + s[1..][..m];
      1 + m
    else 0
  }

  lemma SpaceRunOf(a: string, b: string)
    requires AllRegexSpace(a) && (b == [] || !IsRegexSpace(b[0]))
    ensures SpaceRun(a + b) == |a|
  {
    if a != [] {
      assert (a + b)[1..] == a[1..] + b;
      SpaceRunOf(a[1..], b);
    }
  }

  lemma DigitRunOf(a: string, b: string)
    requires AllDigits(a) && (b == [] || !IsDigit(b[0]))
    ensures DigitRun(a + b) == |a|
  {
    if a != [] {
      assert (a + b)[1..] == a[1..] + b;
      DigitRunOf(a[1..], b);
    }
  }

  /** The text a tail stands for: chapter, then ":start", then "-end". */
  function TailText(t: Tail): string {
    t.chapter + VerseText(t.verseStart, t.verseEnd)
  }

  /** ":start" and "-end", each when present. */
  function VerseText(verseStart: string, verseEnd: string): string {
    if verseStart == [] then []
    else [':'] + verseStart + (if verseEnd == [] then [] else ['-'] + verseEnd)
  }

  /** The shape of tail the pattern can capture. */
  predicate WellFormedTail(t: Tail) {
    t.chapter != [] && AllDigits(t.chapter) && AllDigits(t.verseStart) && AllDigits(t.verseEnd)
    && (t.verseEnd != [] ==> t.verseStart != [])
  }

  /** `(?::(\d+)(?:-(\d+))?)?$` against the whole of `v`: the start and end
      verse captures. */
  function MatchVerses(v: string): (r: Option<(string, string)>)
    ensures r.Some? ==> AllDigits(r.value.0) && AllDigits(r.value.1)
                        && (r.value.1 != [] ==> r.value.0 != [])
                        && v == VerseText(r.value.0, r.value.1)
    ensures v != [] && IsDigit(v[0]) ==> r.None?
  {
    if v == [] then Some(([], []))
    else if v[0] != ':' then None
    else
      var x := v[1..];
      var d := DigitRun(x);
      if d == 0 then None
      else
        var y := x[d..];
        if y == [] then
          assert x[..d] == x;
          Some((x, []))
        else if y[0] != '-' then None
        else
          var z := y[1..];
          if z == [] || !AllDigits(z) then None
          else
            assert v == [':'] + x[..d] + (['-'] + z);
            Some((x[..d], z))
  }

  /** The part of the reference pattern after the book part,
      `\s+(\d+)(?::(\d+)(?:-(\d+))?)?$`, matched against the whole of `s`. */
  function MatchTail(s: string): (r: Option<Tail>)
    ensures s == [] || !IsRegexSpace(s[0]) ==> r.None?
  {
    var w := SpaceRun(s);
    if w == 0 then None
    else
      var u := s[w..];
      var c := DigitRun(u);
      if c == 0 then None
      else
        match MatchVerses(u[c..])
        case None => None
        case Some(vv) => Some(Tail(u[..c], vv.0, vv.1))
  }

  /** What the tail matcher accepts is a non-empty run of spaces followed by
      the text of the well-formed tail it captured. */
  lemma MatchTailSound(s: string)
    requires MatchTail(s).Some?
    ensures WellFormedTail(MatchTail(s).value)
    ensures var k := |s| - |TailText(MatchTail(s).value)|;
            1 <= k <= |s| && s == s[..k] + TailText(MatchTail(s).value) && AllRegexSpace(s[..k])
  {
    var w := SpaceRun(s);
    var u := s[w..];
    var c := DigitRun(u);
    var vv := MatchVerses(u[c..]).value;
    var t := Tail(u[..c], vv.0, vv.1);
    assert MatchTail(s).value == t;
    SplitAt(u, c);
    assert TailText(t) == u;
    SplitAt(s, w);
  }

  /** The verse part of every well-formed tail is matched and captured exactly. */
  lemma MatchVersesComplete(vs: string, ve: string)
    requires AllDigits(vs) && AllDigits(ve) && (ve != [] ==> vs != [])
    ensures MatchVerses(VerseText(vs, ve)) == Some((vs, ve))
  {
    if vs != [] {
      var v := VerseText(vs, ve);
      var rest := if ve == [] then [] else ['-'] + ve;
      assert v[1..] == vs + rest;
      DigitRunOf(vs, rest);
      assert (vs + rest)[..|vs|] == vs;
      assert (vs + rest)[|vs|..] == rest;
      var y := (vs + rest)[|vs|..];
      if ve == [] {
        assert y == [] && vs + rest == vs;
      } else {
        assert y[0] == '-' && y[1..] == ve;
      }
    }
  }

  /** Every well-formed tail behind a non-empty run of spaces is matched and
      captured exactly. */
  lemma MatchTailComplete(ws: string, t: Tail)
    requires ws != [] && AllRegexSpace(ws) && WellFormedTail(t)
    ensures MatchTail(ws + TailText(t)) == Some(t)
  {
    var s := ws + TailText(t);
    SpaceRunOf(ws, TailText(t));
    assert s[|ws|..] == TailText(t);
    var rest := VerseText(t.verseStart, t.verseEnd);
    DigitRunOf(t.chapter, rest);
    assert (t.chapter + rest)[..|t.chapter|] == t.chapter;
    assert (t.chapter + rest)[|t.chapter|..] == rest;
    MatchVersesComplete(t.verseStart, t.verseEnd);
  }

  /** Length of the first line of `s`: `.` matches anything but a newline. */
  function LineEnd(s: string): (n: nat)
    ensures n <= |s| && forall i :: 0 <= i < n ==> s[i] != '\n'
    ensures n == |s| || s[n] == '\n'
  {
    if s == [] || s[0] == '\n' then 0 else 1 + LineEnd(s[1..])
  }

  /** The lazy book group `(.+?)` can end at `j`: it is non-empty, stays on the
      first line, and the rest of `s` matches the tail. */
  predicate Splits(s: string, j: int) {
    1 <= j <= LineEnd(s) && MatchTail(s[j..]).Some?
  }

  /** For each position up to the end of the first line, whether the lazy
      book group can end there. */
  function SplitPoints(s: string): (r: seq<bool>)
    ensures |r| == LineEnd(s) + 1
  {
    seq(LineEnd(s) + 1, j requires 0 <= j <= LineEnd(s) => 1 <= j && MatchTail(s[j..]).Some?)
  }

  /** The first `true` at or after position `k`. */
  function FirstTrue(bs: seq<bool>, k: nat): (r: Option<nat>)
    requires k <= |bs|
    ensures r.Some? ==> k <= r.value < |bs| && bs[r.value]
    ensures r.Some? ==> forall j :: k <= j < r.value ==> !bs[j]
    ensures r.None? ==> forall j :: k <= j < |bs| ==> !bs[j]
    decreases |bs| - k
  {
    if k == |bs| then None
    else if bs[k] then Some(k)
    else FirstTrue(bs, k + 1)
  }

  /** The smallest split point: where the lazy `(.+?)` stops. */
  function FindSplit(s: string): (r: Option<nat>)
    ensures r.Some? ==> 1 <= r.value <= LineEnd(s)
  {
    FirstTrue(SplitPoints(s), 1)
  }

  /** The split point found is one, and no earlier position is one; when none
      is found there is no split point at all. */
  lemma FindSplitSpec(s: string)
    ensures FindSplit(s).Some? ==> Splits(s, FindSplit(s).value)
    ensures FindSplit(s).Some? ==> forall j :: 1 <= j < FindSplit(s).value ==> !Splits(s, j)
    ensures FindSplit(s).None? ==> forall j :: 1 <= j <= |s| ==> !Splits(s, j)
  {
    var bs := SplitPoints(s);
    var r := FirstTrue(bs, 1);
    if r.Some? {
      assert bs[r.value];
      forall j | 1 <= j < r.value
        ensures !Splits(s, j)
      {
        assert !bs[j];
      }
    } else {
      forall j | 1 <= j <= |s|
        ensures !Splits(s, j)
      {
        if j <= LineEnd(s) {
          assert !bs[j];
        }
      }
    }
  }

  /** `findBook`: the Korean name first, then the abbreviation, then the
      lower-cased English code. */
  function FindBook(name: string): (r: Option<BookInfo>)
    ensures r.Some? ==> r.value in AllBooks()
    ensures GetBookByName(name).Some? ==> r == GetBookByName(name)
    ensures GetBookByName(name).None? && GetBookByAbbrev(name).Some? ==> r == GetBookByAbbrev(name)
    ensures GetBookByName(name).None? && GetBookByAbbrev(name).None? ==> r == GetBookByCode(ToLower(name))
    ensures r.None? <==> GetBookByName(name).None? && GetBookByAbbrev(name).None?
                          && GetBookByCode(ToLower(name)).None?
  {
    match GetBookByName(name)
    case Some(b) => Some(b)
    case None =>
      match GetBookByAbbrev(name)
      case Some(b) => Some(b)
      case None => GetBookByCode(ToLower(name))
  }

  /** A reference a successful parse may return: a catalog book, a chapter
      inside it, and either no verse, one positive verse, or an ordered range. */
  predicate ValidReference(r: Reference) {
    (exists b :: b in AllBooks() && b.code == r.bookCode && 1 <= r.chapter <= b.chapterCount)
    && ValidVerses(r.verseStart, r.verseEnd)
  }

  /** No verse (both 0), one positive verse (end 0), or an ordered range. */
  predicate ValidVerses(verseStart: int, verseEnd: int) {
    (verseStart == 0 && verseEnd == 0) || (verseStart >= 1 && (verseEnd == 0 || verseEnd >= verseStart))
  }

  /** The whole reference pattern against a trimmed input: the book part and
      the captured tail, when it matches. */
  function MatchReference(trimmed: string): (r: Option<(string, Tail)>)
    ensures r.Some? ==> var k := |r.value.0|;
                        Splits(trimmed, k) && r.value.0 == trimmed[..k]
                        && MatchTail(trimmed[k..]) == Some(r.value.1)
    ensures r.None? ==> forall j :: 1 <= j <= |trimmed| ==> !Splits(trimmed, j)
  {
    FindSplitSpec(trimmed);
    match FindSplit(trimmed)
    case None => None
    case Some(k) => Some((trimmed[..k], MatchTail(trimmed[k..]).value))
  }

  /** The numeric part of `ParseReference`: the chapter must parse and lie in
      the book, the start verse (when captured) must parse and be positive,
      and the end verse (when captured) must parse and not precede it. */
  function ResolveNumbers(book: BookInfo, tail: Tail): (r: Result<Reference, RefError>)
    ensures r.Ok? ==> r.value.bookCode == book.code && 1 <= r.value.chapter <= book.chapterCount
                      && ValidVerses(r.value.verseStart, r.value.verseEnd)
    ensures r.Err? ==> r.error in {InvalidChapter, ChapterOutOfRange, InvalidVerse, VerseNotPositive, EndBeforeStart}
    // the numbers of a successful result are the parsed captures, 0 standing for an absent verse
    ensures r.Ok? ==> Atoi(tail.chapter) == Some(r.value.chapter)
    ensures r.Ok? && tail.verseStart == [] ==> r.value.verseStart == 0 && r.value.verseEnd == 0
    ensures r.Ok? && tail.verseStart != [] ==> Atoi(tail.verseStart) == Some(r.value.verseStart)
    ensures r.Ok? && tail.verseStart != [] && tail.verseEnd == [] ==> r.value.verseEnd == 0
    ensures r.Ok? && tail.verseStart != [] && tail.verseEnd != [] ==> Atoi(tail.verseEnd) == Some(r.value.verseEnd)
    // and it succeeds exactly when every captured number parses and is in range
    ensures r.Ok? <==>
      && Atoi(tail.chapter).Some? && 1 <= Atoi(tail.chapter).value <= book.chapterCount
      && (tail.verseStart != [] ==>
            && Atoi(tail.verseStart).Some? && Atoi(tail.verseStart).value >= 1
            && (tail.verseEnd != [] ==>
                  Atoi(tail.verseEnd).Some? && Atoi(tail.verseEnd).value >= Atoi(tail.verseStart).value))
    // each failure is the first check that fails, in this order
    ensures Atoi(tail.chapter).None? ==> r == Err(InvalidChapter)
    ensures Atoi(tail.chapter).Some? && !(1 <= Atoi(tail.chapter).value <= book.chapterCount) ==> r == Err(ChapterOutOfRange)
    ensures Atoi(tail.chapter).Some? && 1 <= Atoi(tail.chapter).value <= book.chapterCount && tail.verseStart != [] ==>
      && (Atoi(tail.verseStart).None? ==> r == Err(InvalidVerse))
      && (Atoi(tail.verseStart).Some? && Atoi(tail.verseStart).value < 1 ==> r == Err(VerseNotPositive))
      && (Atoi(tail.verseStart).Some? && Atoi(tail.verseStart).value >= 1 && tail.verseEnd != [] ==>
            && (Atoi(tail.verseEnd).None? ==> r == Err(InvalidVerse))
            && (Atoi(tail.verseEnd).Some? && Atoi(tail.verseEnd).value < Atoi(tail.verseStart).value ==> r == Err(EndBeforeStart)))
  {
    match Atoi(tail.chapter)
    case None => Err(InvalidChapter)
    case Some(chapter) =>
      if chapter < 1 || chapter > book.chapterCount then Err(ChapterOutOfRange)
      else if tail.verseStart == [] then Ok(Reference(book.code, chapter, 0, 0))
      else match Atoi(tail.verseStart)
        case None => Err(InvalidVerse)
        case Some(vs) =>
          if vs < 1 then Err(VerseNotPositive)
          else if tail.verseEnd == [] then Ok(Reference(book.code, chapter, vs, 0))
          else match Atoi(tail.verseEnd)
            case None => Err(InvalidVerse)
            case Some(ve) =>
              if ve < vs then Err(EndBeforeStart)
              else Ok(Reference(book.code, chapter, vs, ve))
  }

  /** `ParseReference`. */
  function ParseReference(input: string): (r: Result<Reference, RefError>)
    ensures AllSpace(input) <==> r == Err(EmptyReference)
    ensures var t := TrimSpace(input);
      t != [] && MatchReference(t).None? <==> r == Err(InvalidFormat)
    ensures var t := TrimSpace(input);
      t != [] && MatchReference(t).Some? && FindBook(TrimSpace(MatchReference(t).value.0)).None? <==> r == Err(UnknownBook)
    ensures r.Ok? ==> ValidReference(r.value)
  {
    var trimmed := TrimSpace(input);
    if trimmed == [] then Err(EmptyReference) else ParseTrimmed(trimmed)
  }

  /** `ParseReference` past the emptiness check: the pattern, then the book,
      then the numbers. */
  function ParseTrimmed(trimmed: string): (r: Result<Reference, RefError>)
    ensures r != Err(EmptyReference)
    ensures MatchReference(trimmed).None? <==> r == Err(InvalidFormat)
    ensures MatchReference(trimmed).Some? && FindBook(TrimSpace(MatchReference(trimmed).value.0)).None? <==> r == Err(UnknownBook)
    ensures r.Ok? ==> ValidReference(r.value)
  {
    match MatchReference(trimmed)
    case None => Err(InvalidFormat)
    case Some((bookPart, tail)) => ParseMatched(bookPart, tail)
  }

  /** `ParseReference` once the pattern matched: the book part must name a
      book, then the numbers must resolve. */
  function ParseMatched(bookPart: string, tail: Tail): (r: Result<Reference, RefError>)
    ensures r != Err(EmptyReference) && r != Err(InvalidFormat)
    ensures FindBook(TrimSpace(bookPart)).None? <==> r == Err(UnknownBook)
    ensures r.Ok? ==> ValidReference(r.value)
  {
    match FindBook(TrimSpace(bookPart))
    case None => Err(UnknownBook)
    case Some(book) => ResolvedValid(book, tail); ResolveNumbers(book, tail)
  }

  /** Numbers resolved against a catalog book make a valid reference. */
  lemma ResolvedValid(book: BookInfo, tail: Tail)
    requires book in AllBooks()
    ensures var r := ResolveNumbers(book, tail);
      && r != Err(EmptyReference) && r != Err(InvalidFormat) && r != Err(UnknownBook)
      && (r.Ok? ==> ValidReference(r.value))
  {
    var r := ResolveNumbers(book, tail);
    assert r.Ok? ==> book in AllBooks() && book.code == r.value.bookCode && 1 <= r.value.chapter <= book.chapterCount;
  }

  /** The captured tail a reference is written with. */
  function FormattedTail(chapter: nat, verseStart: nat, verseEnd: nat): Tail {
    Tail(Digits(chapter),
         if verseStart == 0 then [] else Digits(verseStart),
         if verseStart == 0 || verseEnd == 0 then [] else Digits(verseEnd))
  }

  /** "name chapter[:start[-end]]", the form a reference is written in. */
  function FormatReference(name: string, chapter: nat, verseStart: nat, verseEnd: nat): string {
    name + " " + TailText(FormattedTail(chapter, verseStart, verseEnd))
  }

  /** The text of a well-formed tail ends in a digit. */
  lemma TailTextEndsInDigit(t: Tail)
    requires WellFormedTail(t)
    ensures var txt := TailText(t); txt != [] && IsDigit(txt[|txt| - 1])
  {
    var txt := TailText(t);
    if t.verseStart == [] {
      assert txt == t.chapter + [];
    } else if t.verseEnd == [] {
      assert txt[|txt| - 1] == t.verseStart[|t.verseStart| - 1];
    } else {
      assert txt[|txt| - 1] == t.verseEnd[|t.verseEnd| - 1];
    }
  }

  /** The search finds the first split point. */
  lemma FindSplitFirst(s: string, k: nat)
    requires Splits(s, k) && forall j :: 1 <= j < k ==> !Splits(s, j)
    ensures FindSplit(s) == Some(k)
  {
    FindSplitSpec(s);
  }

  /** The first line of a text reaches past a prefix with no newline. */
  lemma {:induction false} LineEndPast(name: string, rest: string)
    requires forall i :: 0 <= i < |name| ==> name[i] != '\n'
    ensures LineEnd(name + rest) >= |name|
  {
    if name != [] {
      assert (name + rest)[1..] == name[1..] + rest;
      LineEndPast(name[1..], rest);
    }
  }

  /** No split point falls inside a space-free name, and the first line
      reaches past it. */
  lemma NoSplitInName(name: string, rest: string)
    requires forall i :: 0 <= i < |name| ==> !IsSpace(name[i])
    ensures LineEnd(name + rest) >= |name|
    ensures forall j :: 1 <= j < |name| ==> !Splits(name + rest, j)
  {
    var s := name + rest;
    LineEndPast(name, rest);
    forall j | 1 <= j < |name| ensures !Splits(s, j) {
      assert s[j..][0] == name[j];
    }
  }

  /** A space-free name, one space and a well-formed tail split exactly after
      the name. */
  lemma FormattedSplit(name: string, t: Tail)
    requires name != [] && forall i :: 0 <= i < |name| ==> !IsSpace(name[i])
    requires WellFormedTail(t)
    ensures var s := name + " " + TailText(t);
            FindSplit(s) == Some(|name|) && s[..|name|] == name && MatchTail(s[|name|..]) == Some(t)
  {
    var txt := TailText(t);
    var s := name + " " + txt;
    var k := |name|;
    assert s == name + (" " + txt);
    assert s[k..] == " " + txt;
    assert s[..k] == name;
    MatchTailComplete(" ", t);
    NoSplitInName(name, " " + txt);
    FindSplitFirst(s, k);
  }

  /** Such a text is already trimmed. */
  lemma FormattedTrimmed(name: string, t: Tail)
    requires name != [] && forall i :: 0 <= i < |name| ==> !IsSpace(name[i])
    requires WellFormedTail(t)
    ensures var s := name + " " + TailText(t); TrimSpace(s) == s
  {
    var txt := TailText(t);
    var s := name + " " + txt;
    TailTextEndsInDigit(t);
    assert s[|s| - 1] == txt[|txt| - 1];
    assert s[0] == name[0];
    TrimSpaceTrimmed(s);
  }

  /** The numbers of a formatted tail resolve to the numbers written. */
  lemma ResolveFormatted(book: BookInfo, chapter: nat, verseStart: nat, verseEnd: nat)
    requires 1 <= chapter <= book.chapterCount && chapter <= MaxInt64
    requires verseStart <= MaxInt64 && verseEnd <= MaxInt64
    requires verseStart == 0 ==> verseEnd == 0
    requires verseEnd != 0 ==> verseStart <= verseEnd
    ensures ResolveNumbers(book, FormattedTail(chapter, verseStart, verseEnd))
            == Ok(Reference(book.code, chapter, verseStart, verseEnd))
  {
    AtoiItoa(chapter);
    if verseStart != 0 {
      AtoiItoa(verseStart);
      if verseEnd != 0 {
        AtoiItoa(verseEnd);
      }
    }
  }

  /** A space-free name followed by one space and a formatted tail matches the
      pattern with the name as book part and that tail. */
  lemma MatchFormatted(name: string, t: Tail)
    requires name != [] && forall i :: 0 <= i < |name| ==> !IsSpace(name[i])
    requires WellFormedTail(t)
    ensures MatchReference(name + " " + TailText(t)) == Some((name, t))
  {
    var s := name + " " + TailText(t);
    FormattedSplit(name, t);
    FindSplitSpec(s);
  }

  /** Writing a valid reference under any name the book lookup resolves, and
      parsing it back, gives the reference. */
  lemma ParseFormatted(name: string, book: BookInfo, chapter: nat, verseStart: nat, verseEnd: nat)
    requires name != [] && forall i :: 0 <= i < |name| ==> !IsSpace(name[i])
    requires FindBook(name) == Some(book)
    requires 1 <= chapter <= book.chapterCount && chapter <= MaxInt64
    requires verseStart <= MaxInt64 && verseEnd <= MaxInt64
    requires verseStart == 0 ==> verseEnd == 0
    requires verseEnd != 0 ==> verseStart <= verseEnd
    ensures ParseReference(FormatReference(name, chapter, verseStart, verseEnd))
            == Ok(Reference(book.code, chapter, verseStart, verseEnd))
  {
    var t := FormattedTail(chapter, verseStart, verseEnd);
    var s := FormatReference(name, chapter, verseStart, verseEnd);
    FormattedTrimmed(name, t);
    MatchFormatted(name, t);
    TrimSpaceTrimmed(name);
    ResolveFormatted(book, chapter, verseStart, verseEnd);
    ParseResolved(s, name, t, book);
  }

  /** Parsing a trimmed input that matches with a book part naming `book` is
      the numeric resolution of its tail. */
  lemma ParseResolved(s: string, name: string, t: Tail, book: BookInfo)
    requires s != [] && TrimSpace(s) == s
    requires MatchReference(s) == Some((name, t))
    requires FindBook(TrimSpace(name)) == Some(book)
    ensures ParseReference(s) == ResolveNumbers(book, t)
  {
  }

  /** The Korean name of Genesis resolves to the first book. */
  lemma FindGenesis()
    ensures FindBook("창세기") == Some(BookAt(0))
  {
    LookupAt(ByName, "창세기", 0);
  }

  /** "창세기 1" and "창세기 1:3-5" are what the formatter writes for Genesis 1
      and Genesis 1:3-5, and they parse back to those references. */
  lemma ParseExamples()
    ensures ParseReference(FormatReference("창세기", 1, 0, 0)) == Ok(Reference("gen", 1, 0, 0))
    ensures ParseReference(FormatReference("창세기", 1, 3, 5)) == Ok(Reference("gen", 1, 3, 5))
  {
    FindGenesis();
    ParseFormatted("창세기", BookAt(0), 1, 0, 0);
    ParseFormatted("창세기", BookAt(0), 1, 3, 5);
  }

  lemma FormatExamples()
    ensures FormatReference("창세기", 1, 0, 0) == "창세기 1"
    ensures FormatReference("창세기", 1, 3, 5) == "창세기 1:3-5"
  {
    assert Digits(1) == "1" && Digits(3) == "3" && Digits(5) == "5";
  }

  /** `GetBookName`: the Korean name of the book with this code, or "". */
  function GetBookName(code: string): (r: string)
    ensures GetBookByCode(code).None? ==> r == []
    ensures GetBookByCode(code).Some? ==> r == GetBookByCode(code).value.nameKo && r != []
  {
    match GetBookByCode(code)
    case None => []
    case Some(b) => CatalogMember(b); b.nameKo
  }

  /** `GetBookAbbrev`: the Korean abbreviation of the book with this code, or "". */
  function GetBookAbbrev(code: string): (r: string)
    ensures GetBookByCode(code).None? ==> r == []
    ensures GetBookByCode(code).Some? ==> r == GetBookByCode(code).value.abbrevKo && r != []
  {
    match GetBookByCode(code)
    case None => []
    case Some(b) => CatalogMember(b); b.abbrevKo
  }
}
