/** The `read` command: which verses of a chapter it prints for a parsed
    reference, and the left padding of verse numbers. */
module ReadCmd {
  import opened Wrappers
  import opened TextUtil
  import opened BibleRef

  /** A verse as the chapter query returns it: the fields the command uses. */
  datatype Verse = Verse(bookName: string, chapter: int, verseNum: int, text: string, sectionTitle: string)

  datatype ReadError =
    | NoVersesFound(bookCode: string, chapter: int)  // the chapter has no stored verse
    | NoVersesInRange                                // the requested verses are not there

  /** Whether a verse lies in the requested verses: from `verseStart` to
      `verseEnd` when an end is given, otherwise `verseStart` alone. */
  predicate InRange(ref: Reference, v: Verse) {
    v.verseNum >= ref.verseStart
    && (if ref.verseEnd > 0 then v.verseNum <= ref.verseEnd else v.verseNum == ref.verseStart)
  }

  /** The verses in range, in their original order. */
  function Filter(vs: seq<Verse>, ref: Reference): seq<Verse>
    decreases |vs|
  {
    if vs == [] then []
    else Filter(vs[..|vs| - 1], ref) + (if InRange(ref, vs[|vs| - 1]) then [vs[|vs| - 1]] else [])
  }

  /** The verses `runRead` prints: the whole chapter when no verse is
      requested, otherwise the verses in range. */
  function Selection(verses: seq<Verse>, ref: Reference): seq<Verse> {
    if ref.verseStart > 0 then Filter(verses, ref) else verses
  }

  /** The selection step of `runRead`: an empty chapter fails, the loop keeps
      the verses in range, and an empty selection fails. */
  method SelectVerses(verses: seq<Verse>, ref: Reference) returns (r: Result<seq<Verse>, ReadError>)
    ensures verses == [] ==> r == Err(NoVersesFound(ref.bookCode, ref.chapter))
    ensures verses != [] && Selection(verses, ref) == [] ==> r == Err(NoVersesInRange)
    ensures verses != [] && Selection(verses, ref) != [] ==> r == Ok(Selection(verses, ref))
  {
    if |verses| == 0 {
      return Err(NoVersesFound(ref.bookCode, ref.chapter));
    }
    var selected := verses;
    if ref.verseStart > 0 {
      var filtered := [];
      for i := 0 to |verses|
        invariant filtered == Filter(verses[..i], ref)
      {
        assert verses[..i + 1][..i] == verses[..i];
        var v := verses[i];
        if v.verseNum >= ref.verseStart {
          if ref.verseEnd > 0 {
            if v.verseNum <= ref.verseEnd {
              filtered := filtered + [v];
            }
          } else {
            if v.verseNum == ref.verseStart {
              filtered := filtered + [v];
            }
          }
        }
      }
      assert verses[..|verses|] == verses;
      selected := filtered;
    }
    if |selected| == 0 {
      return Err(NoVersesInRange);
    }
    return Ok(selected);
  }

  // ---------------------------------------------------------------------
  // Properties of the selection

  /** Every kept verse comes from the chapter and lies in range. */
  lemma {:induction false} FilterSound(vs: seq<Verse>, ref: Reference)
    ensures forall v :: v in Filter(vs, ref) ==> v in vs && InRange(ref, v)
    decreases |vs|
  {
    if vs != [] {
      FilterSound(vs[..|vs| - 1], ref);
    }
  }

  /** Every verse of the chapter that lies in range is kept. */
  lemma {:induction false} FilterComplete(vs: seq<Verse>, ref: Reference)
    ensures forall v :: v in vs && InRange(ref, v) ==> v in Filter(vs, ref)
    decreases |vs|
  {
    if vs != [] {
      var init := vs[..|vs| - 1];
      FilterComplete(init, ref);
      assert vs == init + [vs[|vs| - 1]];
    }
  }

  /** Filtering keeps the original order: the kept verses of two stretches
      are those of the first followed by those of the second. */
  lemma {:induction false} FilterAppend(a: seq<Verse>, b: seq<Verse>, ref: Reference)
    ensures Filter(a + b, ref) == Filter(a, ref) + Filter(b, ref)
    decreases |b|
  {
    if b == [] {
      assert a + b == a;
    } else {
      var init := b[..|b| - 1];
      var last := b[|b| - 1];
      assert (a + b)[..|a + b| - 1] == a + init;
      assert (a + b)[|a + b| - 1] == last;
      FilterAppend(a, init, ref);
    }
  }

  /** With a range, exactly the verses from start to end are printed. */
  lemma RangeSelection(verses: seq<Verse>, ref: Reference)
    requires ref.verseStart > 0 && ref.verseEnd > 0
    ensures forall v :: v in Selection(verses, ref) <==> v in verses && ref.verseStart <= v.verseNum <= ref.verseEnd
  {
    FilterSound(verses, ref);
    FilterComplete(verses, ref);
  }

  /** With a single verse, exactly the verses of that number are printed. */
  lemma SingleSelection(verses: seq<Verse>, ref: Reference)
    requires ref.verseStart > 0 && ref.verseEnd <= 0
    ensures forall v :: v in Selection(verses, ref) <==> v in verses && v.verseNum == ref.verseStart
  {
    FilterSound(verses, ref);
    FilterComplete(verses, ref);
  }

  // ---------------------------------------------------------------------
  // padLeft

  /** `padLeft(s, width)`: `s` right-aligned in `width` columns, taking one
      column per character. The result is `s` behind spaces, exactly `width`
      wide when `s` is narrower, and `s` itself otherwise (so padding twice
      to the same width pads once). */
  function PadLeft(s: string, width: int): (r: string)
    ensures |r| == (if |s| >= width then |s| else width)
    ensures r[|r| - |s|..] == s
    ensures forall i :: 0 <= i < |r| - |s| ==> r[i] == ' '
    ensures |s| >= width ==> r == s
  {
    if |s| >= width then s else RepeatChar(' ', width - |s|) + s
  }
}
