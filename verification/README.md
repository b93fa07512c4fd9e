# bible-tui, modelled in Dafny

bible-tui is a terminal Bible reader for the Korean Revised Version (개역개정,
version code "GAE"). A crawler downloads every chapter from the Korean Bible
Society's web site, parses each chapter page into verses, titles and
footnotes, and stores them in a local database. A command line offers
`read` (print a passage given as a Korean or English reference), `search`
(full-text search with the matches highlighted) and `update` (self-update
from the latest GitHub release). A full-screen interface offers a book and
chapter browser, a reading view, search, bookmarks and highlights, reading
plans (the sequential plan, M'Cheyne's one-year calendar, and custom plans)
and a settings screen (theme, font size, version), persisted in the same
database.

This project models the logic behind all of that and proves what it
promises:

- **Books** (`books.dfy`): the 66-book catalog with its codes, Korean and
  English names and chapter counts, and the lookups by code, by name and by
  abbreviation.
- **Reference parsing** (`reference.dfy`): `ParseReference` reads "창 1:1",
  "John 3:16-18", "Gen 1" and similar forms into a book, chapter and verse
  range; formatting a reference and parsing it back returns it.
- **M'Cheyne plan** (`mcheyne.dfy`): four reading tracks spread over 365
  days, with consecutive chapters of one book merged into one entry.
- **Chapter parser** (`parser.dfy`): the walk over a chapter page's element
  tree that opens a verse at each `number` span, attaches section titles,
  collects footnote markers and footnote texts, and normalises whitespace.
- **Crawler** (`crawler.dfy`): book setup, the chapter loop with its
  checkpoints, cancellation, failure reporting and final validation, as a
  class over a store class and a context class.
- **Search** (`search.dfy`, `search_cmd.dfy`): the full-text pass with its
  substring fallback, de-duplication and limit, the case-insensitive match
  count, and the highlight renderer of the `search` command.
- **Read command** (`read_cmd.dfy`): which verses of a chapter a reference
  selects.
- **Update** (`update.dfy`): reading the running version, deciding whether
  the latest release is newer, and choosing the release asset for the
  platform.
- **Settings** (`config.dfy`, `styles.dfy`): loading and saving the
  configuration through the settings table, font-size padding and theme
  lookup.
- **Interface** (`tui_*.dfy`): the update functions of every screen and of
  the application that routes keys and asynchronous results between them,
  as values and commands.

All strings are sequences of characters; a Go `int` is an unbounded integer
except where its 64-bit range matters (parsing numbers), where the range is
written out.

## Model

| member | source | states |
|---|---|---|
| TextUtil.TrimSpace | internal/bible/reference.go:20 | `strings.TrimSpace`: no space at either end of the result, which is empty exactly when the input is all space |
| TextUtil.TrimLeft | internal/bible/reference.go:20 | drops exactly the leading spaces: the rest is a suffix that does not start with a space |
| TextUtil.TrimRight | internal/bible/reference.go:20 | drops exactly the trailing spaces: the rest is a prefix that does not end with a space |
| TextUtil.TrimSpaceMiddle | internal/bible/reference.go:20 | the trimmed text is a contiguous middle part of the input and every character cut from either end is a space |
| TextUtil.TrimSpaceTrimmed | internal/bible/reference.go:20 | trimming is idempotent on a string with no space at either end |
| TextUtil.ToLower | internal/bible/books.go:95 | `strings.ToLower`, character by character, length kept |
| TextUtil.ToLowerIdempotent | internal/db/search.go:150-151 | lower-casing twice is lower-casing once |
| TextUtil.IndexFromSpec | internal/db/search.go:195 | the search from a position finds the first occurrence there or later, -1 exactly when there is none |
| TextUtil.IndexSpec | internal/db/search.go:153 | `strings.Index` is -1 exactly when the pattern does not occur, and otherwise its first occurrence |
| TextUtil.IndexSlice | internal/db/search.go:195 | `strings.Index` on the suffix from `pos` is the search from `pos`, shifted |
| TextUtil.Index | internal/db/search.go:153 | `strings.Index`: -1 or a position at which the pattern fits inside the text |
| TextUtil.TrimPrefix | cmd/update.go:49 | `strings.TrimPrefix`: when the input starts with the prefix, the rest after it; otherwise the input unchanged |
| TextUtil.RemoveChar | internal/parser/parser.go:122 | `strings.ReplaceAll` of one character by "": the character no longer occurs, every other character keeps its count, and an input without it is unchanged |
| TextUtil.RemoveCharCons | internal/parser/parser.go:122 | a leading character is dropped when it is the removed one and kept otherwise |
| TextUtil.RemoveCharConcat | internal/parser/parser.go:122 | removing from a concatenation removes from each part, so every other character stays, in its order |
| TextUtil.RepeatChar | internal/tui/plans.go:463 | `strings.Repeat` of one character: n copies |
| TextUtil.Fields | internal/parser/parser.go:163 | `strings.Fields`: every field is a non-empty run of non-space characters; no field exactly when the input is all space |
| TextUtil.FieldsWord | internal/parser/parser.go:163 | a non-empty run of non-space characters is exactly one field, itself |
| TextUtil.FieldsSpaceCons | internal/parser/parser.go:163 | a leading space contributes no field |
| TextUtil.FieldsWordCons | internal/parser/parser.go:163 | a leading non-space character joins the first field when the rest starts with one, and is a field of its own otherwise |
| TextUtil.FieldsSplit | internal/parser/parser.go:163 | cutting at a space cuts the fields: the fields of a, a space, then b are the fields of a followed by those of b |
| TextUtil.Atoi | internal/bible/reference.go:40 | `strconv.Atoi`: results within the 64-bit range; "" and a bare sign fail; an unsigned digit string within range reads as its decimal value; it succeeds exactly when the input is an optional sign followed by at least one ASCII digit (`SignedDecimal`) whose value (`SignedValue`, negated after "-") lies in the 64-bit range, and then returns that value |
| TextUtil.AtoiCases | internal/bible/reference.go:40 | `strconv.Atoi` rejects a non-digit unsigned input, a digit string above 2^63-1, a sign followed by a non-digit, "+n" above 2^63-1 and "-n" above 2^63; "-n" up to 2^63 reads as -n |
| TextUtil.AtoiItoa | internal/config/config.go:59 | round trip: every 64-bit integer formatted by `strconv.Itoa` parses back to itself |
| TextUtil.Itoa | internal/config/config.go:59 | `strconv.Itoa`: never empty, and starts with a digit exactly when the number is not negative |
| Books.AllBooks | internal/bible/books.go:14-91 | the catalog has 66 books and its i-th entry is the i-th book of the canonical table |
| Books.FirstMatch | internal/bible/books.go:94-122 | the first position at or after `from` whose field equals the key; no earlier position matches; none exactly when no later book matches |
| Books.Lookup | internal/bible/books.go:94-122 | a found book is a catalog entry with the key in the field and no earlier entry has it; not found exactly when no entry has it |
| Books.FindBook | internal/bible/books.go:96-101 | the range loop with early return finds the same book as the lookup (none when the loop ends) |
| Books.GetBookByCode | internal/bible/books.go:94-102 | the key is lower-cased first; a found book's code is the lower-cased key; not found exactly when no code equals it |
| Books.GetBookByName | internal/bible/books.go:105-112 | exact match on the Korean name; not found exactly when no name equals the key |
| Books.GetBookByAbbrev | internal/bible/books.go:115-122 | exact match on the Korean abbreviation; not found exactly when no abbreviation equals the key |
| Books.CatalogShape | internal/bible/books.go:14-84 | 66 books: the first 39 are tagged old testament, the other 27 new testament |
| Books.CatalogChapterCounts | internal/bible/books.go:14-84 | every book has between 1 and 150 chapters |
| Books.CatalogNonEmpty | internal/bible/books.go:14-84 | every book has a non-empty code, name and abbreviation |
| Books.CatalogMember | internal/bible/books.go:14-84 | any book the catalog returns has those bounds and non-empty names |
| Books.LookupAt | internal/bible/books.go:94-122 | the lookup returns book k when k matches and no earlier book does |
| Books.ExampleGen | internal/bible/books.go:16 | "GEN" finds Genesis (the code is case-insensitive), which has 50 chapters |
| Books.ExamplePsa | internal/bible/books.go:34 | "Psa" finds Psalms |
| Books.ExamplePsaChapters | internal/bible/books.go:34 | Psalms has 150 chapters |
| Books.ExamplePsaName | internal/bible/books.go:34 | the Korean name of Psalms finds it |
| Books.ExampleMissing | internal/bible/books.go:94-102 | "genesis" is no code: every code has three letters |
| Books.CodesMatchCatalog | internal/bible/books.go:14-84 | the code table used for proofs lists each catalog book's code at its position |
| Books.FoundAt | internal/bible/books.go:94-102 | a lower-case code that no earlier book has finds its own book |
| Books.CodesFoundFrom0 | internal/bible/books.go:16-39 | the codes of books 1 to 24 each find their own book |
| Books.CodesFoundFrom24 | internal/bible/books.go:40-51 | the codes of books 25 to 36 each find their own book |
| Books.CodesFoundFrom36 | internal/bible/books.go:52-62 | the codes of books 37 to 45 each find their own book |
| Books.CodesFoundFrom45 | internal/bible/books.go:63-69 | the codes of books 46 to 52 each find their own book |
| Books.CodesFoundFrom52 | internal/bible/books.go:70-75 | the codes of books 53 to 58 each find their own book |
| Books.CodesFoundFrom58 | internal/bible/books.go:76-80 | the codes of books 59 to 63 each find their own book |
| Books.CodesFoundFrom63 | internal/bible/books.go:81-83 | the codes of books 64 to 66 each find their own book |
| Books.CodesFound | internal/bible/books.go:14-102 | the 66 codes are lower case and distinct: each finds exactly its own book |
| Books.CountsMatchCatalog | internal/bible/books.go:14-84 | the halving table gives each catalog book's chapter count |
| Books.SuffixStep | internal/bible/books.go:14-84 | the chapters of books i onward are book i's plus those after it |
| Books.ChaptersFrom44 | internal/bible/books.go:62-83 | the last 22 books, Romans to Revelation, have 143 chapters |
| Books.ChaptersFrom43 | internal/bible/books.go:61-83 | the last 23 books, Acts to Revelation, have 171 chapters |
| Books.ChaptersFrom22 | internal/bible/books.go:38-83 | the last 44 books, Isaiah to Revelation, have 510 chapters |
| Books.ChaptersFrom17 | internal/bible/books.go:33-83 | the last 49 books, Job to Revelation, have 753 chapters |
| Books.ChaptersFrom0 | internal/bible/books.go:14-84 | the catalog has 1189 chapters |
| McCheyne.Expand | internal/bible/mcheyne.go:4-8 | an entry stands for chapters start..end of its book, in order |
| McCheyne.AddChapter | internal/bible/mcheyne.go:113-125 | one grouping step never leaves the list empty |
| McCheyne.Grouped | internal/bible/mcheyne.go:103-128 | the grouping is empty exactly when the chapter list is (nil for no chapters) |
| McCheyne.GroupChapterRefs | internal/bible/mcheyne.go:103-128 | the loop with a running current entry computes the grouping |
| McCheyne.GroupedPrefixStep | internal/bible/mcheyne.go:113-125 | grouping one more chapter of the list is one more grouping step |
| McCheyne.RunStep | internal/bible/mcheyne.go:115-124 | a continuing chapter extends the current entry; any other closes it and opens a new one |
| McCheyne.FlattenAppend | internal/bible/mcheyne.go:118 | appending an entry appends its chapters |
| McCheyne.AddChapterWellFormed | internal/bible/mcheyne.go:113-125 | a grouping step keeps start ≤ end in every entry |
| McCheyne.GroupedWellFormed | internal/bible/mcheyne.go:103-128 | every entry of a grouping has start ≤ end |
| McCheyne.ExpandExtend | internal/bible/mcheyne.go:115-116 | extending an entry by the chapter right after its end adds exactly that chapter |
| McCheyne.FlattenMerge | internal/bible/mcheyne.go:115-116 | merging a continuing chapter into the last entry adds exactly that chapter to the expansion |
| McCheyne.AddChapterFlatten | internal/bible/mcheyne.go:113-125 | a grouping step adds exactly its chapter to the expansion |
| McCheyne.GroupedFlatten | internal/bible/mcheyne.go:101-128 | round trip: the grouping expands back to exactly the chapter list it was made from |
| McCheyne.AddChapterMaximal | internal/bible/mcheyne.go:115-124 | a grouping step keeps adjacent entries from continuing one another |
| McCheyne.GroupedMaximal | internal/bible/mcheyne.go:101-128 | consecutive chapters are merged maximally: no entry continues the one before it |
| McCheyne.ChapterRun | internal/bible/mcheyne.go:70-72 | chapters 1..count of one book, in order |
| McCheyne.BookChapters | internal/bible/mcheyne.go:66-72 | a code missing from the catalog contributes nothing; otherwise chapters 1..chapterCount |
| McCheyne.AllTracks | internal/bible/mcheyne.go:27-74 | four track chapter lists, each the chapters of its books in order |
| McCheyne.DayBounds | internal/bible/mcheyne.go:88-92 | day slices are ordered within the track, and non-empty when the track has at least 365 chapters |
| McCheyne.YearEnd | internal/bible/mcheyne.go:89 | the last day ends at the end of the track |
| McCheyne.Schedule | internal/bible/mcheyne.go:76-98 | the calendar has 365 days |
| McCheyne.AppendChapterRun | internal/bible/mcheyne.go:70-72 | the chapter loop appends chapters 1..count |
| McCheyne.AppendBookChapters | internal/bible/mcheyne.go:66-72 | unknown codes are skipped; known ones append their chapter run |
| McCheyne.CollectTrackChapters | internal/bible/mcheyne.go:65-73 | the book loop builds the track's chapter list |
| McCheyne.AppendTrackDays | internal/bible/mcheyne.go:82-95 | every day gets exactly the entries its slice of the track groups into, appended after what it had |
| McCheyne.CollectAllTracks | internal/bible/mcheyne.go:63-74 | the track loop builds all four chapter lists |
| McCheyne.BuildDays | internal/bible/mcheyne.go:76-96 | 365 days, each the four tracks' entries in track order |
| McCheyne.McCheyneSchedule | internal/bible/mcheyne.go:26-99 | the method computes the calendar |
| McCheyne.TrackShares | internal/bible/mcheyne.go:87-95 | one chapter slice per day, 365 of them |
| McCheyne.Boundaries | internal/bible/mcheyne.go:88-89 | 366 boundaries for 365 days |
| McCheyne.TrackDayFlatten | internal/bible/mcheyne.go:87-94 | `TrackDay`: a day's entries from one track expand to exactly that day's slice [d·n/365, (d+1)·n/365) |
| McCheyne.SliceConcat | internal/bible/mcheyne.go:88-89 | adjacent slices join |
| McCheyne.ConcatSlices | internal/bible/mcheyne.go:87-95 | slices cut at ordered boundaries from 0 join to the prefix up to the k-th boundary |
| McCheyne.TrackPartition | internal/bible/mcheyne.go:16-25 | over the year every chapter of a track is read exactly once and in order |
| McCheyne.LongTrackEveryDay | internal/bible/mcheyne.go:87-94 | a track of at least 365 chapters gives every day at least one entry |
| McCheyne.DayOfFourTracks | internal/bible/mcheyne.go:81-95 | a day's entries are track 0's, then 1's, 2's and 3's |
| McCheyne.DayOrder | internal/bible/mcheyne.go:81-95 | each calendar day lists the four tracks' shares in track order |
| McCheyne.CodesIn | internal/bible/books.go:14-84 | the codes of catalog books lo..hi-1, in catalog order |
| McCheyne.Track0Range | internal/bible/mcheyne.go:28-34 | `TrackBooks(0)`, track 1, is the catalog run Genesis..Esther |
| McCheyne.Track1Range | internal/bible/mcheyne.go:35-43 | track 2 is the catalog run Acts..Revelation followed by Job..Song of Songs |
| McCheyne.Track2Range | internal/bible/mcheyne.go:44-51 | track 3 is the catalog run Matthew..John followed by Isaiah..Malachi |
| McCheyne.Track3Range | internal/bible/mcheyne.go:52-60 | track 4 is Psalms followed by the catalog run Romans..Revelation |
| McCheyne.TrackChaptersAppend | internal/bible/mcheyne.go:64-73 | `TrackChapters` of two runs of codes is the first run's chapters followed by the second's |
| McCheyne.TrackChaptersHead | internal/bible/mcheyne.go:64-73 | a track's chapter list opens with all chapters of its first book |
| McCheyne.BookChaptersAt | internal/bible/mcheyne.go:66-72 | the lookup finds catalog book k by its code, so its run has the book's chapter count |
| McCheyne.RangeLength | internal/bible/mcheyne.go:64-73 | a run of catalog books contributes as many chapters as their counts add up to |
| McCheyne.FirstTrackLength | internal/bible/mcheyne.go:28-34 | track 1 holds 436 chapters |
| McCheyne.SecondTrackLength | internal/bible/mcheyne.go:35-43 | track 2 holds 414 chapters |
| McCheyne.MorningTrackLengths | internal/bible/mcheyne.go:27-74 | both morning tracks hold more than 365 chapters (436 and 414) |
| McCheyne.AtLeastTwoEntries | internal/bible/mcheyne_test.go:12-16 | every one of the 365 days has at least two reading sections |
| McCheyne.GroupedHead | internal/bible/mcheyne.go:103-128 | the first entry of a grouping starts at the first chapter, of its book |
| McCheyne.GenesisChapters | internal/bible/mcheyne.go:66-72 | the code "gen" is found in the catalog, with chapters |
| McCheyne.FirstTrackOpensWithGenesis | internal/bible/mcheyne.go:28-34 | track 1's chapter list starts at Genesis 1 |
| McCheyne.ScheduleStartsWithGenesis | internal/bible/mcheyne_test.go:18-24 | day 1's first entry is Genesis starting at chapter 1 |
| McCheyne.CodesInCatalog | internal/bible/books.go:14-84 | every code of a catalog run is a catalog code |
| McCheyne.TrackChaptersValid | internal/bible/mcheyne.go:64-73 | catalog codes give chapters of catalog books numbered from 1 |
| McCheyne.ValidRefsAppend | internal/bible/mcheyne.go:71 | appending valid chapters keeps the list valid |
| McCheyne.RangesValid | internal/bible/mcheyne.go:64-73 | two catalog runs give valid chapters |
| McCheyne.Track0Valid | internal/bible/mcheyne.go:28-34 | track 1 lists valid chapters |
| McCheyne.Track1Valid | internal/bible/mcheyne.go:35-43 | track 2 lists valid chapters |
| McCheyne.Track2Valid | internal/bible/mcheyne.go:44-51 | track 3 lists valid chapters |
| McCheyne.Track3Valid | internal/bible/mcheyne.go:52-60 | track 4 lists valid chapters |
| McCheyne.TrackValid | internal/bible/mcheyne.go:27-74 | any track lists valid chapters |
| McCheyne.AllTracksValid | internal/bible/mcheyne.go:63-74 | all four tracks list chapters of catalog books numbered from 1 |
| McCheyne.AddChapterValid | internal/bible/mcheyne.go:113-125 | a grouping step over a valid chapter keeps every entry valid |
| McCheyne.GroupedValid | internal/bible/mcheyne.go:103-128 | the grouping of valid chapters names catalog books with 1 ≤ start ≤ end |
| McCheyne.TrackDayValid | internal/bible/mcheyne.go:87-94 | a day's entries from a valid track are valid |
| McCheyne.ValidEntriesAppend | internal/bible/mcheyne.go:93 | appending valid entries keeps the day valid |
| McCheyne.ScheduleEntriesValid | internal/bible/mcheyne_test.go:36-50 | every entry of every day names a catalog book, starts at chapter 1 or later and does not end before it starts |
| BibleRef.SpaceRun | internal/bible/reference.go:17 | the leading run of `\s` characters, maximal |
| BibleRef.DigitRun | internal/bible/reference.go:17 | the leading run of `\d` characters, maximal |
| BibleRef.SpaceRunOf | internal/bible/reference.go:17 | spaces followed by a non-space give a run of exactly their length |
| BibleRef.DigitRunOf | internal/bible/reference.go:17 | digits followed by a non-digit give a run of exactly their length |
| BibleRef.MatchVerses | internal/bible/reference.go:17 | `(?::(\d+)(?:-(\d+))?)?$` on the rest: both captures are digits, an end only with a start, and the text is exactly ":start" "-end"; a text starting with a digit is refused |
| BibleRef.MatchTail | internal/bible/reference.go:17 | `\s+(\d+)…$` needs a leading space; otherwise no match |
| BibleRef.MatchTailSound | internal/bible/reference.go:17 | a matched tail is well formed: non-empty digit chapter, digit verses, an end only with a start |
| BibleRef.MatchVersesComplete | internal/bible/reference.go:17 | every well-formed verse part is matched and captured exactly |
| BibleRef.MatchTailComplete | internal/bible/reference.go:17 | spaces followed by any well-formed tail are matched and captured exactly (with MatchTailSound, the matcher's language is exactly these texts) |
| BibleRef.LineEnd | internal/bible/reference.go:17 | `.` does not cross a newline: the first line's length |
| BibleRef.SplitPoints | internal/bible/reference.go:17 | one candidate end of the lazy book group per position of the first line |
| BibleRef.FirstTrue | internal/bible/reference.go:17 | the first true flag at or after k, and none before it |
| BibleRef.FindSplit | internal/bible/reference.go:17 | the lazy group `(.+?)` is non-empty and stays on the first line |
| BibleRef.FindSplitSpec | internal/bible/reference.go:17 | laziness: the split found is the smallest split point; none found means none exists |
| BibleRef.FindBook | internal/bible/reference.go:81-95 | the book with that Korean name; failing that, the one with that abbreviation; failing both, the one whose code is the lower-cased name; not found exactly when all three lookups fail |
| BibleRef.MatchReference | internal/bible/reference.go:17 | a match splits the trimmed input at the smallest split point into the book part and the tail captures; no match means no split point |
| BibleRef.ResolveNumbers | internal/bible/reference.go:40-78 | succeeds exactly when the chapter parses and lies in 1..chapterCount and any start verse parses and is ≥ 1 and any end verse parses and is ≥ the start; a success carries the book's code and the parsed numbers (0 for an absent verse); a failure is the first failing check, in the order chapter not a number, chapter out of range, start not a number, start below 1, end not a number, end before start |
| BibleRef.ParseResolved | internal/bible/reference.go:25-78 | once the pattern matches and the book part resolves, the parse result is the resolution of the captured numbers |
| BibleRef.ParseReference | internal/bible/reference.go:19-79 | an all-space input, and only that, is the empty-reference error; a non-blank input the pattern does not match, and only that, is the invalid-format error; a matched input whose book part names no book, and only that, is the unknown-book error; a success is a catalog book, an in-range chapter and no verse, one positive verse or an ordered range |
| BibleRef.ParseTrimmed | internal/bible/reference.go:25-78 | past the emptiness check no empty-reference error arises; the invalid-format error comes exactly from a pattern mismatch and the unknown-book error exactly from an unresolved book part; a success is valid |
| BibleRef.ParseMatched | internal/bible/reference.go:30-78 | once the pattern matched: the unknown-book error exactly when the trimmed book part names no book; never the empty-reference or invalid-format error; a success is valid |
| BibleRef.ResolvedValid | internal/bible/reference.go:40-78 | numbers resolved against a catalog book give a valid reference, and never the empty-reference, invalid-format or unknown-book error |
| BibleRef.TailTextEndsInDigit | internal/bible/reference.go:17 | the written form of a tail ends in a digit |
| BibleRef.FindSplitFirst | internal/bible/reference.go:17 | the search returns the first split point |
| BibleRef.LineEndPast | internal/bible/reference.go:17 | the first line reaches past a newline-free prefix |
| BibleRef.NoSplitInName | internal/bible/reference.go:17 | no split point falls inside a space-free name |
| BibleRef.FormattedSplit | internal/bible/reference.go:17 | "name tail" splits exactly after the name |
| BibleRef.FormattedTrimmed | internal/bible/reference.go:20 | "name tail" is already trimmed |
| BibleRef.ResolveFormatted | internal/bible/reference.go:40-78 | the written numbers of a valid reference resolve back to those numbers |
| BibleRef.MatchFormatted | internal/bible/reference.go:25-33 | "name tail" matches with the name as the book part and that tail |
| BibleRef.ParseFormatted | internal/bible/reference.go:19-79 | round trip: a valid reference written under any space-free name the lookup resolves parses back to itself |
| BibleRef.FindGenesis | internal/bible/reference.go:81-84 | the Korean name of Genesis finds the first book |
| BibleRef.ParseExamples | internal/bible/reference_test.go:7-24 | "창세기 1" parses to Genesis 1 and "창세기 1:3-5" to Genesis 1:3-5 |
| BibleRef.FormatExamples | internal/bible/reference_test.go:7-24 | the formatter writes "창세기 1" and "창세기 1:3-5" |
| BibleRef.GetBookName | internal/bible/reference.go:97-103 | the Korean name of a known code, non-empty; "" for an unknown one |
| BibleRef.GetBookAbbrev | internal/bible/reference.go:105-111 | the abbreviation of a known code, non-empty; "" for an unknown one |
| HtmlParser.HasClass | internal/parser/parser.go:160-171 | true exactly when some `class` attribute lists the name among its `strings.Fields` words (the fields as `TextUtil.FieldsWord` and `TextUtil.FieldsSplit` pin them down) |
| HtmlParser.HasStyleContaining | internal/parser/parser.go:173-180 | true exactly when some `style` attribute contains the substring |
| HtmlParser.SpanNumber | internal/parser/parser.go:120-127 | a verse number read from a `number` span lies in the 64-bit range |
| HtmlParser.Started | internal/parser/parser.go:70-78 | `startVerse` appends one verse carrying the pending title, clears the title, makes the new verse current; earlier verses unchanged |
| HtmlParser.UpdateCurrent | internal/parser/parser.go:81-105 | only the current verse is replaced |
| HtmlParser.WithText | internal/parser/parser.go:80-84 | `addText` appends to the current verse's text only; nothing before the first verse |
| HtmlParser.WithMarker | internal/parser/parser.go:86-93 | `addFootnoteMarker` appends an empty footnote slot to the current verse only; nothing before the first verse |
| HtmlParser.LastEmpty | internal/parser/parser.go:100-105 | the last footnote with empty content, none exactly when every footnote has content |
| HtmlParser.Filled | internal/parser/parser.go:99-105 | only the last empty slot gets the content; no change when there is none |
| HtmlParser.WithContent | internal/parser/parser.go:95-106 | `setFootnoteContent` fills the current verse's last empty slot; nothing before the first verse |
| HtmlParser.Numbers | internal/parser/parser.go:17-22 | the verse numbers, position by position |
| HtmlParser.GrowsTrans | internal/parser/parser.go:155-157 | two growth steps compose, opening the verses of both in order |
| HtmlParser.NumbersPrefix | internal/parser/parser.go:76 | a list extending another with the same leading numbers starts with its numbers |
| HtmlParser.InPlaceStep | internal/parser/parser.go:80-106 | a step that rewrites the current verse in place opens no verse |
| HtmlParser.StartedStep | internal/parser/parser.go:70-78 | opening a verse appends its number and keeps earlier verses |
| HtmlParser.HandleSpec | internal/parser/parser.go:109-147 | `Handle`, the step for one special element, opens a verse exactly when it is a `number` span whose text reads as a number, and keeps earlier verses |
| HtmlParser.WalkSpec | internal/parser/parser.go:108-158 | `Walk` keeps the current-verse invariant, only extends the verse list, and opens exactly the `number` spans' verses in document order (an independent definition) |
| HtmlParser.WalkAllSpec | internal/parser/parser.go:155-157 | the same for `WalkAll` over a list of siblings |
| HtmlParser.PrunedAddsNoText | internal/parser/parser.go:111-146 | titles, hidden fonts, number spans, comment links, footnote divs, images and scripts add no verse text |
| HtmlParser.MarkerKeepsTexts | internal/parser/parser.go:86-93 | a footnote marker leaves every verse text alone |
| HtmlParser.ContentKeepsTexts | internal/parser/parser.go:95-106 | footnote content leaves every verse text alone |
| HtmlParser.WalkPlain | internal/parser/parser.go:150-157 | `Walk` over a subtree with no special element appends exactly its `CollectText` to the current verse |
| HtmlParser.WalkAllPlain | internal/parser/parser.go:155-157 | the same for `WalkAll` over a list of siblings |
| HtmlParser.WithTextEmpty | internal/parser/parser.go:80-84 | appending "" changes nothing |
| HtmlParser.WithTextTwice | internal/parser/parser.go:80-84 | two appends are one append of the concatenation |
| HtmlParser.DropSpaceRun | internal/parser/parser.go:29 | drops a leading `\s` run: the rest does not start with `\s` |
| HtmlParser.Collapse | internal/parser/parser.go:56 | `\s+` → " ": empty exactly when the input is, starts with a space exactly when the input does, and has no two adjacent `\s` |
| HtmlParser.NoSpaceRunsCons | internal/parser/parser.go:56 | prefixing a character keeps "no adjacent spaces" unless both are spaces |
| HtmlParser.NoSpaceRunsSuffix | internal/parser/parser.go:57 | a suffix of a collapsed text has no adjacent spaces |
| HtmlParser.NoSpaceRunsPrefix | internal/parser/parser.go:57 | a prefix of a collapsed text has no adjacent spaces |
| HtmlParser.NormalizeNormalized | internal/parser/parser.go:54-59 | `Normalize` leaves no space at either end and no run of `\s` |
| HtmlParser.SolidConcat | internal/parser/parser.go:54-59 | the non-space characters of a concatenation are those of the parts |
| HtmlParser.SolidSpaces | internal/parser/parser.go:54-59 | an all-space text has no non-space characters |
| HtmlParser.SolidDropSpaceRun | internal/parser/parser.go:56 | dropping a space run keeps the non-space characters |
| HtmlParser.SolidCollapse | internal/parser/parser.go:56 | collapsing keeps the non-space characters in order |
| HtmlParser.SolidTrimLeft | internal/parser/parser.go:57 | trimming the front keeps the non-space characters |
| HtmlParser.SolidTrimRight | internal/parser/parser.go:57 | trimming the end keeps the non-space characters |
| HtmlParser.SolidTrim | internal/parser/parser.go:57 | `TrimSpace` keeps the non-space characters |
| HtmlParser.NormalizeKeepsText | internal/parser/parser.go:54-59 | `Normalize` changes only whitespace: the non-space characters survive in order |
| HtmlParser.NormalizeAll | internal/parser/parser.go:54-59 | every verse normalised, position by position |
| HtmlParser.NormalizeAllPointwise | internal/parser/parser.go:54-59 | a list normalised position by position is the normalised list |
| HtmlParser.NormalizeAllSpec | internal/parser/parser.go:54-59 | normalisation keeps every verse number and leaves every text normalised |
| HtmlParser.ParseState.StartVerse | internal/parser/parser.go:70-78 | the state becomes the `startVerse` step of the old state |
| HtmlParser.ParseState.AddText | internal/parser/parser.go:80-84 | the state becomes the `addText` step of the old state |
| HtmlParser.ParseState.AddFootnoteMarker | internal/parser/parser.go:86-93 | the state becomes the marker step of the old state |
| HtmlParser.ParseState.SetFootnoteContent | internal/parser/parser.go:95-106 | the downward scan fills the same slot as the last-empty-slot definition |
| HtmlParser.ParseState.NormalizeTexts | internal/parser/parser.go:54-59 | the closing loop normalises every verse text and changes nothing else |
| HtmlParser.WalkNode | internal/parser/parser.go:108-158 | the recursive walk on the mutable state equals the value-level walk |
| HtmlParser.HandleElement | internal/parser/parser.go:109-147 | the special-element branches equal their value-level step |
| HtmlParser.WalkChildren | internal/parser/parser.go:155-157 | the sibling loop equals the walk over the list |
| HtmlParser.ParseChapterHTML | internal/parser/parser.go:31-62 | blank input, and only that, is the empty-input error; no container is the container error; otherwise the verses' numbers are the `number` spans' in document order and every text is normalised |
| HtmlParser.ParseState.constructor | internal/parser/parser.go:46-48 | the walk starts with no verses, no current verse and no pending title |
| Crawl.NoteRows | internal/crawler/crawler.go:154-158 | one footnote row per footnote, in order, each pointing at the verse's row id |
| Crawl.StoreChapter | internal/crawler/crawler.go:139-161 | after the parse: nothing but the chapter's own checkpoint may change, and nothing of it when its checkpoint write fails (which fails the chapter); success means the parse succeeded, the parsed verses' rows were appended in order and the checkpoint is `done` with their number |
| Crawl.ChapterStep | internal/crawler/crawler.go:129-162 | `crawlChapter`: the clock moves, nothing is reported, only the chapter's checkpoint may change, the page is requested at most once; a chapter whose checkpoint write fails always fails and keeps its checkpoint; a success was requested, served and stored |
| Crawl.KeepsStatus | internal/crawler/crawler.go:100-127 | a checkpoint outside the chapters a run may touch keeps its status |
| Crawl.Iteration | internal/crawler/crawler.go:101-125 | one loop iteration: a stop is a cancellation or an unreadable checkpoint and changes nothing but the clock; going on, the chapter ends `done` and reported, `error` and unreported, or, when its checkpoint writes fail (the `error` write's failure is ignored), with its checkpoint unchanged and unreported; a chapter already `done` is not requested and keeps its checkpoint |
| Crawl.IterationGoesOn | internal/crawler/crawler.go:102-110 | without a cancellation or a read failure, an iteration goes on one clock tick later with whether the checkpoint reads `done` |
| Crawl.Resume | internal/crawler/crawler.go:110-124 | a chapter already `done` is reported, with no request and the store unchanged; any other is requested at most once and ends `done` and reported or `error` and unreported, or keeps its checkpoint unreported when its checkpoint writes fail; only that checkpoint changes |
| Crawl.Attempt | internal/crawler/crawler.go:117-124 | an attempted chapter whose checkpoint writes succeed ends `done` and reported, or `error` and not reported; one whose writes fail keeps its checkpoint and is not reported, the failed `error` write being ignored; the page is requested at most once |
| Crawl.ChapterRows | internal/db/db.go:245-275 | exactly the stored rows of the chapter |
| Crawl.Codes | internal/crawler/crawler.go:75-81 | the catalog codes in catalog order |
| Crawl.Rows | internal/crawler/crawler.go:149-150 | one verse row per parsed verse, in order |
| Crawl.InsertVersesFrame | internal/crawler/crawler.go:149-159 | the insertion loop touches neither books nor checkpoints and only appends rows, also when a footnote insert fails |
| Crawl.InsertVersesCount | internal/crawler/crawler.go:149-159 | at most one row per parsed verse; one for each when the loop succeeds, fewer when a duplicate stops it; it fails only on a duplicate verse or on a failed footnote insert |
| Crawl.InsertVersesRows | internal/crawler/crawler.go:149-159 | the rows appended are those of a prefix of the parsed verses, in order |
| Crawl.AppendPrefix | internal/crawler/crawler.go:149-159 | a row followed by a prefix of the rest is a prefix of the whole |
| Crawl.KeepsTrans | internal/crawler/crawler.go:101-125 | the frames of consecutive chapter ranges compose |
| Crawl.CrawlFrom | internal/crawler/crawler.go:100-127 | `crawlBookChapters` fails only on cancellation or an unreadable checkpoint; chapter failures never stop it |
| Crawl.CrawlFromFrame | internal/crawler/crawler.go:100-127 | no checkpoint outside the book's remaining chapters changes, `done` checkpoints are kept, progress is only appended to |
| Crawl.DoneKeptStep | internal/crawler/crawler.go:110-115 | a `done` checkpoint survives the iteration that skips it and the rest of the run |
| Crawl.CrawlFromFetches | internal/crawler/crawler.go:101-119 | chapters are requested in ascending order, each at most once, never one already `done` |
| Crawl.FetchOrderCons | internal/crawler/crawler.go:101-119 | the request order of one iteration followed by the rest's is ascending |
| Crawl.CrawlFromSettles | internal/crawler/crawler.go:100-127 | a run that completes leaves every chapter `done` or `error`, except a chapter whose checkpoint writes fail, which keeps the status it had |
| Crawl.CrawlFromReports | internal/crawler/crawler.go:110-124 | a run that completes has reported exactly the chapters that end `done`, in ascending order |
| Crawl.CancelInsideChapter | internal/crawler/crawler.go:117-119 | a cancellation seen in the limiter or the request is recorded as the chapter's `error` (the store is unchanged when that write fails); the next iteration aborts, or after the last chapter the call succeeds |
| Crawl.CancelledBefore | internal/crawler/crawler.go:102-104 | an already cancelled context requests nothing, reports nothing, changes no checkpoint, and fails exactly when a chapter remains |
| Crawl.CrawlBookSpec | internal/crawler/crawler.go:92-98 | `CrawlBook` fails with an unknown code exactly when the catalog lookup fails, and then touches nothing |
| Crawl.ValidateChapters | internal/crawler/crawler.go:172-188 | the chapter loop of `Validate` fails only on cancellation, a failed verse read, a chapter without verses or an empty text |
| Crawl.ValidateChaptersSpec | internal/crawler/crawler.go:172-188 | the chapter loop passes only if every chapter has verses and no empty text; without cancellation and failed verse reads exactly then |
| Crawl.ValidateBooks | internal/crawler/crawler.go:164-191 | `Validate` fails only with the chapter loop's errors or a missing book |
| Crawl.ValidateBooksSpec | internal/crawler/crawler.go:164-191 | `Validate` passes only if every book is stored and complete; without cancellation and failed verse reads exactly then |
| Crawl.Setup | internal/crawler/crawler.go:75-81 | the book setup touches nothing but the books, only adds books, and its only error is the failing book's write |
| Crawl.SetupSpec | internal/crawler/crawler.go:75-81 | the book setup succeeds exactly when no book write fails, and then every book is stored |
| Crawl.CrawlBooks | internal/crawler/crawler.go:83-88 | the book loop of `CrawlAll` fails only on cancellation or an unreadable checkpoint |
| Crawl.CrawlAllSpec | internal/crawler/crawler.go:69-90 | no single chapter's failure (request, parse, rows, checkpoint write) fails `CrawlAll`; only the setup writes, cancellation, an unreadable checkpoint and validation do |
| Crawl.CrawlAllValidated | internal/crawler/crawler.go:69-90 | `CrawlAll` succeeds only when the store it leaves is complete |
| Crawl.CancelledCrawlAll | internal/crawler/crawler.go:69-90 | cancelled from the start: no request, no report, no checkpoint or verse change, and failure |
| Crawl.Store.InsertVersion | internal/db/db.go:145-161 | succeeds unless the write fails |
| Crawl.Store.InsertBook | internal/db/db.go:183-197 | an upsert: on success the book is stored, otherwise nothing changes |
| Crawl.Store.HasBook | internal/db/db.go:199-212 | whether the book row exists |
| Crawl.Store.GetCrawlStatus | internal/crawler/crawler.go:106-109 | the recorded status, "" for a chapter never recorded, nothing when the read fails |
| Crawl.Store.SetCrawlStatus | internal/crawler/crawler.go:161 | an upsert of the chapter's checkpoint, or no change and failure when the chapter's checkpoint writes fail |
| Crawl.Store.InsertVerse | internal/db/db.go:214-232 | a duplicate book/chapter/number is rejected and changes nothing; otherwise the row is appended and its id is its position |
| Crawl.Store.InsertFootnote | internal/db/db.go:234-243 | the row is appended, or nothing changes and the insert fails when the verse belongs to a chapter whose footnote writes fail |
| Crawl.Store.GetVerses | internal/db/db.go:245-275 | the chapter's rows, or nothing when the chapter's read fails |
| Crawl.Context.Err | internal/crawler/crawler.go:102 | cancelled from the cancellation moment on; each observation advances the clock |
| Crawl.Crawler.WaitLimiter | internal/crawler/crawler.go:130-132 | the wait fails exactly on a cancelled context |
| Crawl.Crawler.FetchChapter | internal/crawler/crawler.go:193-223 | a cancelled context sends no request; otherwise the request is recorded and an unserved page fails |
| Crawl.Crawler.StoreVerses | internal/crawler/crawler.go:149-159 | the verse loop computes the insertion function, stopping at a duplicate verse or a failed footnote insert |
| Crawl.Crawler.StoreFootnotes | internal/crawler/crawler.go:154-158 | the footnote loop appends the verse's footnote rows, or fails at the first insert and changes nothing when the verse's footnote writes fail |
| Crawl.Crawler.CrawlChapter | internal/crawler/crawler.go:129-162 | the method is the chapter step on the store, clock and records |
| Crawl.Crawler.StoreParsed | internal/crawler/crawler.go:144-161 | the method is the store step, including a failed `done` write |
| Crawl.Crawler.CrawlIteration | internal/crawler/crawler.go:101-125 | the method is one loop iteration; `stopped` exactly when the iteration stops |
| Crawl.Crawler.ResumeChapter | internal/crawler/crawler.go:110-124 | the method is the rest of an iteration |
| Crawl.Crawler.AttemptChapter | internal/crawler/crawler.go:117-124 | the method is the attempt; the result of the `error` write is discarded |
| Crawl.Crawler.CrawlBookChapters | internal/crawler/crawler.go:100-127 | the loop computes the chapter-loop function, so the lemmas on it hold of the method |
| Crawl.Crawler.CrawlBook | internal/crawler/crawler.go:92-98 | the method computes the book crawl |
| Crawl.Crawler.Validate | internal/crawler/crawler.go:164-191 | the loops compute the validation function |
| Crawl.Crawler.ValidateBook | internal/crawler/crawler.go:172-188 | the chapter loop of validation, failing on a failed verse read |
| Crawl.Crawler.CrawlAll | internal/crawler/crawler.go:69-90 | version, book setup, every book in catalog order, then validation |
| Crawl.Crawler.InsertBooks | internal/crawler/crawler.go:75-81 | the setup loop computes the setup function |
| Crawl.Crawler.CrawlEveryBook | internal/crawler/crawler.go:83-88 | the book loop computes the book-loop function |
| Crawl.AllTextsPresent | internal/crawler/crawler.go:183-187 | true exactly when no row has empty text |
| Crawl.NoteRowsSnoc | internal/crawler/crawler.go:154-158 | one more footnote adds one more row |
| Crawl.Crawler.constructor | internal/crawler/crawler.go:54-66 | a crawler over a store and the pages the site serves, with no progress reported and no page fetched yet |
| ReadCmd.SelectVerses | cmd/read.go:41-70 | an empty chapter is the "no verses found" error; an empty selection the "no verses in range" error; otherwise the selection |
| ReadCmd.FilterSound | cmd/read.go:50-66 | every verse `Filter` keeps comes from the chapter and is `InRange` |
| ReadCmd.FilterComplete | cmd/read.go:50-66 | every verse of the chapter that is `InRange` is kept |
| ReadCmd.FilterAppend | cmd/read.go:52-64 | filtering keeps the original order |
| ReadCmd.RangeSelection | cmd/read.go:53-57 | with a range, `InRange` selects exactly the verses numbered from start to end |
| ReadCmd.SingleSelection | cmd/read.go:58-62 | with one verse, `InRange` selects exactly the verses of that number |
| ReadCmd.PadLeft | cmd/read.go:101-108 | right-aligned behind spaces: exactly `width` wide when narrower, the string itself otherwise |
| Search.CountMatches | internal/db/search.go:188-203 | the count is the number of case-insensitive matches |
| Search.CountLowered | internal/db/search.go:192-202 | the search-and-resume loop counts the scan's positions |
| Search.NextMatch | internal/db/search.go:195-200 | one search: nothing found means no match is left; a hit resumes strictly further on with one match fewer left |
| Search.PositionsStep | internal/db/search.go:195-200 | a failed search leaves no match; a hit at `idx` is one match, the rest resume after it |
| Search.PositionsUnfold | internal/db/search.go:195-200 | `Positions`: the scan from a position is the first occurrence there or later, then the scan after it |
| Search.PositionsNext | internal/db/search.go:195-200 | the next match is `idx` characters on |
| Search.PositionsSpaced | internal/db/search.go:200 | matches are in order and do not overlap |
| Search.PositionsGreedy | internal/db/search.go:192-202 | `Positions` reads the leftmost non-overlapping occurrences |
| Search.GreedyUnique | internal/db/search.go:192-202 | there is only one leftmost non-overlapping reading |
| Search.MatchesAreGreedy | internal/db/search.go:187-203 | `Matches` are exactly the leftmost non-overlapping case-insensitive occurrences (both directions) |
| Search.MatchesIgnoreCase | internal/db/search.go:189-190 | lower-casing the text or the query first changes nothing |
| Search.MatchesExample | internal/db/search.go:200 | "aa" occurs once in "aaa" |
| Search.WindowStart | internal/db/search.go:163-166 | the window starts at or before the match |
| Search.WindowEnd | internal/db/search.go:168-171 | the window ends after the match and within the text |
| Search.SnippetWithoutMatch | internal/db/search.go:154-160 | `GenerateSnippet` without a match: the text when at most 2·context long, else its first 2·context characters and "..." |
| Search.OccursFramed | internal/db/search.go:177-182 | adding ellipses around the window keeps an occurrence, shifted |
| Search.WindowShowsSpan | internal/db/search.go:162-184 | `Window`: the matched span lies inside the window, right after at most `contextChars` characters and an ellipsis |
| Search.WindowOffset | internal/db/search.go:163-166 | where the span starts in the window |
| Search.SpanInSlice | internal/db/search.go:174 | the span is found in any slice around it |
| Search.WindowLength | internal/db/search.go:162-184 | `Window` is at most the span plus twice the context plus two ellipses, and at most the text plus two ellipses |
| Search.SnippetShowsMatch | internal/db/search.go:148-185 | `GenerateSnippet` with a match is the `Window` around the first match, in the text's own case |
| Search.Limit | internal/db/search.go:64 | `LIMIT n`: a prefix of at most n rows |
| Search.Delivered | internal/db/search.go:73-98 | the rows read before a failure: a prefix, at most n |
| Search.Fresh | internal/db/search.go:85-88 | the seen set only grows, and no more rows are kept than read |
| Search.ToResults | internal/db/search.go:91-95 | one result per kept row, in order |
| Search.ScanRows | internal/db/search.go:72-98 | the row loop keeps the unseen rows, marks them seen and builds their results; it fails exactly when the backend does |
| Search.SearchVerses | internal/db/search.go:18-49 | the method computes the search function |
| Search.FreshSound | internal/db/search.go:85-88 | kept rows are rows read, with distinct ids none of which was seen; afterwards every id read is seen |
| Search.FreshComplete | internal/db/search.go:85-88 | no unseen id is lost |
| Search.ToResultsDistinct | internal/db/search.go:91-95 | distinct rows give results with distinct verses |
| Search.AppendDistinct | internal/db/search.go:36-45 | full-text rows then unseen substring rows stay distinct |
| Search.PickShape | internal/db/search.go:27-46 | `Pick`: full-text rows (`FtsPass`) are kept unless that query fails; substring rows (`LikePass`) are added exactly when the full-text query failed, or gave fewer than 5 rows and fewer than the limit, and the substring query succeeds |
| Search.PickDistinct | internal/db/search.go:18-49 | the picked rows are distinct and at most `limit` |
| Search.PickRowsDistinct | internal/db/search.go:23-46 | the shared seen set makes the two passes' rows distinct |
| Search.PickProvenance | internal/db/search.go:27-46 | every picked row comes from the backend it is listed under |
| Search.DeliveredFrom | internal/db/search.go:73-98 | delivered rows are backend rows |
| Search.PickFallback | internal/db/search.go:28-34 | after a failed full-text query only substring rows are picked, none the failed query had read |
| Search.SearchRows | internal/db/search.go:18-49 | `SearchSpec` lists the picked rows in order, full-text ones first; each result carries its count of case-insensitive matches; a full-text row carries the index's snippet, a substring row the snippet generated around its first match with 30 characters of context |
| Search.SearchDistinct | internal/db/search.go:15-17 | `SearchSpec` lists no verse twice |
| Search.SearchWithinLimit | internal/db/search.go:18-49 | at most `limit` results |
| Search.SearchProvenance | internal/db/search.go:18-49 | every result is a row of one of the two backends |
| Search.FallbackSkipsRead | internal/db/search.go:27-34 | rows a failed full-text query read before failing stay seen and never appear among the fallback's results |
| SearchCmd.RenderSpansCons | cmd/search.go:85-88 | rendering a span puts the text before it plain and the match styled |
| SearchCmd.HighlightSearchTerm | cmd/search.go:67-94 | the output is the text cut at its case-insensitive matches, the text between them copied and every match styled; an empty query gives the text back |
| SearchCmd.HighlightLowered | cmd/search.go:75-93 | the search-copy-style-resume loop produces the highlighted text for the leftmost reading of the query |
| SearchCmd.NextMatch | cmd/search.go:79-80 | `strings.Index` on the rest is -1 exactly when no match is left, else the offset of the next one |
| SearchCmd.GreedyAdvance | cmd/search.go:79-90 | one search on the leftmost reading: a find is its first position, and the reading goes on after that match |
| SearchCmd.PositionsAdvance | cmd/search.go:79-90 | one search on the scan's matches |
| SearchCmd.HighlightedRender | cmd/search.go:75-93 | the loop's output is `Render` of the text cut by `Segments` at the matches |
| SearchCmd.HighlightedUnstyled | cmd/search.go:81-88 | with a style that adds nothing the loop copies the text |
| SearchCmd.HighlightIdentity | cmd/search.go:67-70 | highlighting only adds styling: without a style, or with an empty query, the output is the text |
| SearchCmd.CutMatches | cmd/search.go:85-88 | `Segments` gives one span per match, each the slice of the original text there |
| SearchCmd.HighlightMarksMatches | cmd/search.go:87-88 | the styled parts are exactly the matches `countMatches` counts, in the text's own case |
| SearchCmd.DisplayText | cmd/search.go:55-58 | a non-empty snippet is shown as it is; an empty one is replaced by the verse text; the shown text is empty only when both are |
| SearchCmd.HighlightResults | cmd/search.go:54-62 | one highlighted line per result, in order |
| Update.Decorate | cmd/root.go:17-22 | the version is always a prefix of the stored string, which is the bare version exactly when no commit ("none" or "") is recorded |
| Update.SpaceIndex | cmd/update.go:106 | `strings.Index(v, " ")` is -1 exactly when `v` has no space, else the first space's position |
| Update.BeforeSpace | cmd/update.go:106-108 | the text before the first space: a space-free prefix of the version, followed in it by a space when shorter, and all of it when it has no space |
| Update.TrimPrefixNoSpace | cmd/update.go:109 | removing the "v" keeps the version space-free |
| Update.ParseCurrentVersion | cmd/update.go:102-110 | "" and "dev" read as "dev"; any other version comes back space-free, and a space-free one only loses its leading "v" |
| Update.ParseDecorated | cmd/update.go:100-110 | reading back what `SetVersion` stored gives the version without its "v", whether or not a commit was recorded |
| Update.DevAlwaysUpdates | cmd/update.go:52 | a development build is never the latest |
| Update.LatestExactly | cmd/update.go:49-55 | `IsLatest` holds exactly when the installed version read by `ParseCurrentVersion` is not "dev" and the tag is "v" followed by it, or is it when the tag does not start with "v" |
| Update.SameReleaseIsLatest | cmd/update.go:49-55 | a release build of version x, with or without a commit, is the latest when the tag is "v" + x |
| Update.EndsWithAppend | cmd/update.go:143 | the wanted name ends in the extension it was built with |
| Update.TarGzIsNotZip | cmd/update.go:75 | `IsZipArchive` never holds for a ".tar.gz" name |
| Update.Extension | cmd/update.go:139-142 | ".zip" exactly on windows, ".tar.gz" on every other system |
| Update.AssetName | cmd/update.go:143 | the name starts with "bible_" and the version and ends with the platform's extension |
| Update.FirstNamed | cmd/update.go:145-149 | the scan finds nothing exactly when no asset has the name, else the position of the first that does |
| Update.FindAsset | cmd/update.go:138-152 | the asset returned is the first one with the wanted name; the error, which names the platform and the wanted file, comes exactly when none has it |
| Update.FoundArchiveKind | cmd/update.go:75-79 | `IsZipArchive` holds for the asset found exactly on windows |
| Update.Decide | cmd/update.go:49-60 | `runUpdate` stops exactly when the installed release is the latest; otherwise it installs an asset of the release named for this platform, or fails because none is |
| Settings.SettingsStore.constructor | internal/db/db.go:301-322 | the store starts with the given rows and failing keys |
| Settings.SettingsStore.GetSetting | internal/db/db.go:301-311 | the stored value; "" for a key without a row; nothing when the read fails |
| Settings.SettingsStore.SetSetting | internal/db/db.go:313-322 | insert-or-replace: the key's row holds the value afterwards and no other row changes; a failed write changes nothing |
| Settings.Loaded | internal/config/config.go:16-52 | loading fails exactly when a read fails or a non-empty font size is not a decimal integer; otherwise each empty setting keeps its default, each non-empty one replaces it, and theme and version are never empty |
| Settings.LoadConfig | internal/config/config.go:16-52 | the configuration loaded from the store is the one `Loaded` describes |
| Settings.Save | internal/config/config.go:54-68 | keys other than the three keep their rows; the save succeeds exactly when no write fails, and then the store holds theme, decimal font size and version; a failure stops the later writes |
| Settings.SaveConfig | internal/config/config.go:54-68 | the store after the three writes, and the verdict, are those of `Save` |
| Settings.LoadEmpty | internal/config/config.go:17-21 | an empty store loads the defaults "dark", 2 and "GAE" |
| Settings.SaveThenLoad | internal/config/config.go:16-68 | saving a configuration with a theme and a version, then loading it back, gives the same configuration |
| Styles.ClampLevel | internal/tui/styles/font.go:16-21 | the level lies in 1..3: levels in range are kept, lower ones become 1 and higher ones 3 |
| Styles.GetFontSizeConfig | internal/tui/styles/font.go:15-30 | the row of the clamped level, with the spacings the table gives for levels 1, 2 and 3 |
| Styles.FontSizeMonotone | internal/tui/styles/font.go:5-11 | every spacing grows or stays as the level rises |
| Styles.FontSizeIdempotent | internal/tui/styles/font.go:15-21 | asking again for the level of a returned row gives the same row |
| Styles.GetTheme | internal/tui/styles/theme.go:97-111 | a preset name gives that preset; any other name gives the dark theme |
| Styles.PresetsReadable | internal/tui/styles/theme.go:22-95 | each preset sets background, foreground and primary colours, and background and foreground differ |
| TuiChapters.NewChapterList | internal/tui/chapterlist.go:28-37 | chapter 1 selected in a grid of 10 columns |
| TuiChapters.Update | internal/tui/chapterlist.go:39-68 | right/left move one chapter unless at the last/first, down/up one row unless that leaves the book, enter and only enter selects the current chapter; the selection stays within the book |
| TuiChapters.MovesUndo | internal/tui/chapterlist.go:43-59 | a row down that moved is undone by a row up, a step right that moved by a step left |
| TuiReading.NewReading | internal/tui/reading.go:32-44 | the chapter, no verses yet, loading |
| TuiReading.Update | internal/tui/reading.go:53-92 | a verses message ends loading and on success replaces the verses; h/left asks for the previous chapter unless at 1, l/right for the next unless at the last, and a requested chapter stays in the book |
| TuiBookmarks.NewBookmarks | internal/tui/bookmarks.go:44-52 | the bookmarks tab, nothing loaded |
| TuiBookmarks.DeleteSelected | internal/tui/bookmarks.go:123-142 | a delete is issued exactly when there is a database and a selected item; a bookmark is removed by its id, a highlight by its verse |
| TuiBookmarks.GoToSelected | internal/tui/bookmarks.go:144-158 | the verse of the selected item of the active tab is opened exactly when an item is selected |
| TuiBookmarks.Update | internal/tui/bookmarks.go:71-114 | a load replaces both lists on success and resets the selection; a successful delete reloads; tab switches tabs; j/k stay within the active list; the selection always stays on the list |
| TuiBookmarks.TruncateRunes | internal/tui/bookmarks.go:219-228 | a string longer than a positive limit keeps its first `maxLen` characters followed by "..."; otherwise it is unchanged |
| TuiBookmarks.HighlightColor | internal/tui/bookmarks.go:230-245 | each of the five colour names maps to its colour; any other name gets the yellow one |
| TuiSearch.NewSearch | internal/tui/search.go:40-55 | an empty, focused input and no results |
| TuiSearch.Submit | internal/tui/search.go:62-69 | the trimmed input is sent as the query with loading set, and nothing is sent exactly when the input is blank |
| TuiSearch.SentQueryTrimmed | internal/tui/search.go:63-67 | a sent query is non-empty and already trimmed |
| TuiSearch.UpdateFocused | internal/tui/search.go:60-75 | enter submits; down/tab leave the input only when there are results; other keys go to the input |
| TuiSearch.UpdateList | internal/tui/search.go:76-106 | up moves the selection up or back into the input at the top; down stays within the results; enter opens the selected verse exactly when one is selected; `/` refocuses the input |
| TuiSearch.Update | internal/tui/search.go:57-124 | a results message always ends loading; a failure clears the results and reports none, a success stores them and selects the first; keys go to the input or the list |
| TuiSearch.FocusRoundTrip | internal/tui/search.go:70-83 | leaving the input for the list and pressing k at the first result comes back to the same screen |
| TuiSettings.OptionCount | internal/tui/settings.go:154-176 | every row has at least one option |
| TuiSettings.Cycle | internal/tui/settings.go:154-176 | one step forward or back stays within the options and wraps at both ends |
| TuiSettings.CycleInverse | internal/tui/settings.go:154-176 | a step forward undoes a step back, and the reverse |
| TuiSettings.IndexOrZero | internal/tui/settings.go:201-217 | the position of the first equal entry, or 0 when there is none (`ThemeNameToIdx`, `VersionCodeToIdx`) |
| TuiSettings.ChoiceOf | internal/tui/settings.go:69-84 | a loaded configuration selects valid options: its theme when it is a preset, and the font size clamped to the three levels |
| TuiSettings.ConfigOf | internal/tui/settings.go:178-192 | the saved configuration names a preset theme, a known version and a font size in 1..3 |
| TuiSettings.ChoiceRoundTrip | internal/tui/settings.go:69-84 | saving the chosen options and loading them back selects the same options |
| TuiSettings.SettingsModel.constructor | internal/tui/settings.go:48-55 | the first row focused, every first option, nothing loaded or saved |
| TuiSettings.SettingsModel.Focused | internal/tui/settings.go:154-176 | the focused row's index lies within its options |
| TuiSettings.SettingsModel.StepOption | internal/tui/settings.go:154-176 | only the focused row's option moves, one step with wrap-around |
| TuiSettings.SettingsModel.Update | internal/tui/settings.go:67-110 | a load sets `loaded` and the options the config selects; up/down move the focus within the three rows; left/right cycle the focused row and keep the other two rows' options; enter or s marks the screen saved and asks to save the chosen config and apply its theme |
| TuiSettings.StepBackAndForth | internal/tui/settings.go:98-103 | a left step and a right step on the same row restore every option |
| Plans.CollectChapters | internal/db/plans.go:38-43 | the nested loop lists every chapter of every book, book by book and chapter by chapter |
| Plans.TotalDays | internal/db/plans.go:45-46 | the day count is the chapter count divided by three, rounded up: enough days for all chapters and no day to spare |
| Plans.DayChapters | internal/db/plans.go:71-76 | each day reads one to three chapters |
| Plans.PlanUpTo | internal/db/plans.go:71-100 | one day per step, each the grouping of that day's chapters |
| Plans.GroupDay | internal/db/plans.go:78-99 | the running-entry loop of one day emits exactly the grouping of that day's chapters |
| Plans.PendingStep | internal/db/plans.go:81-92 | on the entries emitted so far plus the open run, a continuing chapter extends the run, and any other emits it and opens a run of its own |
| Plans.CodesOf | internal/db/plans.go:38-43 | every listed chapter carries a book code, because every book has one |
| Plans.CatalogCodes | internal/db/plans.go:38-43 | every catalog chapter carries a non-empty book code, so the empty code can mean "no entry yet" |
| Plans.SplitIntoDays | internal/db/plans.go:45-100 | the day loop produces the plan of the chapter list, and as many days as the day count |
| Plans.CreateSequentialPlan | internal/db/plans.go:31-106 | the sequential plan is the plan of the whole catalog, with its day count |
| Plans.ReadingsStep | internal/db/plans.go:71-100 | adding a day adds exactly that day's chapters to the readings |
| Plans.ReadingsPrefix | internal/db/plans.go:71-100 | the first k days read exactly the first min(3k, N) chapters |
| Plans.PlanPartition | internal/db/plans.go:71-100 | the days of `Plan` partition the chapter list: read one after another they give back every chapter, in order, once |
| Plans.PlanDay | internal/db/plans.go:71-100 | each day of `Plan` has entries that expand to exactly its chapters; a day has one to three entries, each well formed and maximally merged |
| Plans.GroupedAtMost | internal/db/plans.go:78-99 | grouping never yields more entries than chapters |
| Plans.GroupedRun | internal/db/plans.go:81-82 | consecutive chapters 1..n of one book become a single entry |
| Plans.CatalogPlanStart | internal/db/plans_test.go:50-64 | the plan opens with Genesis 1-3 as one entry, so its first entry is gen chapter 1 |
| Plans.SuffixLength | internal/db/plans.go:38-43 | the chapter list of books i onward is as long as their counts add up to |
| Plans.CatalogPlanLength | internal/db/plans_test.go:42-44 | the catalog has 1189 chapters, so the sequential plan runs 397 days, more than 300 |
| Plans.MaxDay | internal/db/plans.go:149-154 | the largest day number among the entries, or 0 when there are none or none is positive |
| Plans.TodayDayNumber | internal/db/plans.go:217-225 | today's day number is the elapsed days plus one, clamped into 1..totalDays |
| TuiPlans.NewPlans | internal/tui/plans.go:68-77 | the plan list view, nothing loaded, version 1 |
| TuiPlans.ActivePlanId | internal/tui/plans.go:275-280 | the plan of the first loaded entry, 0 when no entry is loaded |
| TuiPlans.ToggleEntry | internal/tui/plans.go:282-290 | marks the selected entry completed exactly when it exists and is not completed yet |
| TuiPlans.GoToEntry | internal/tui/plans.go:292-300 | opens verse 1 of the selected entry's first chapter exactly when an entry is selected |
| TuiPlans.Move | internal/tui/plans.go:203-210 | one step down or up, never past either end of the list |
| TuiPlans.UpdateList | internal/tui/plans.go:201-228 | j/k move over the plans; enter opens the selected plan's entries in the today view; n opens the create form on its first option; d deletes the selected plan; the selection stays on the list |
| TuiPlans.UpdateToday | internal/tui/plans.go:230-249 | j/k move over the entries; space marks the selected entry; enter opens it; esc returns to the list with the first plan selected |
| TuiPlans.PlanType | internal/tui/plans.go:263-266 | the second option stands for the M'Cheyne plan, every other for the sequential one |
| TuiPlans.UpdateCreate | internal/tui/plans.go:251-273 | j/k choose between the two plan types; enter returns to the list and creates the chosen plan; esc cancels; only enter issues a command |
| TuiPlans.Update | internal/tui/plans.go:148-199 | a plans load replaces the plans on success and resets the selection; an entries load replaces entries and progress on success; a created or deleted plan reloads the list; a completed entry reloads today's entries of the active plan in the today view; keys go to the view |
| TuiPlans.OpenThenBack | internal/tui/plans.go:211-217 | opening a plan and leaving with esc returns to the list with the first plan selected |
| TuiPlans.CreateThenCancel | internal/tui/plans.go:218-220 | opening the create form and cancelling it keeps the plans and creates nothing |
| TuiPlans.Filled | internal/tui/plans.go:459-462 | the filled cells are the completed share of the width rounded down, never more than the width; a finished plan fills the bar, an untouched one leaves it empty |
| TuiPlans.CompletedFills | internal/tui/plans.go:459-462 | a completed count of at least the total fills the whole width |
| TuiPlans.FilledMonotone | internal/tui/plans.go:459-462 | more completed readings never fill fewer cells |
| TuiPlans.Bar | internal/tui/plans.go:463 | `width` cells, the first `filled` full and the rest empty |
| TuiPlans.RenderProgressBar | internal/tui/plans.go:451-465 | nothing exactly for an empty plan; otherwise a bar of the width, or 10 cells when the width is not positive, filled in proportion, then the counts and the percentage rounded down |
| TuiPlans.FinishedBarFull | internal/tui/plans.go:459-463 | a finished plan shows a full bar |
| TuiPlans.FormatEntryRef | internal/tui/plans.go:467-472 | the book code and a space, then the chapter or range, ending in "장" |
| TuiPlans.FormatEntryRefReadsBack | internal/tui/plans.go:467-472 | the chapter part reads back as the chapter, or as the two ends of the run around its one dash |
| TuiApp.NewApp | internal/tui/app.go:46-53 | the app starts on the book list with the dark theme, not ready |
| TuiApp.FindBookByCode | internal/tui/app.go:365-372 | the catalog book whose code is exactly the given one; nothing exactly when no catalog book has it |
| TuiApp.Owner | internal/tui/app.go:93-146 | each screen result belongs to the reading screen or to an overlay screen |
| TuiApp.RouteAsWritten | internal/tui/app.go:93-146 | every result goes to its screen except a plan deletion, which has no case and is dropped at line 304 |
| TuiApp.Route | internal/tui/plans.go:182-186 | every result, the plan deletion included, goes to the screen that asked for it, agreeing with the code wherever the code routes it |
| TuiApp.PlanDeletionDroppedAsWritten | internal/tui/app.go:59-305 | as written, a plan deletion never reaches the plans screen, although that screen would reload its list on it |
| TuiApp.PlanDeletionReloads | internal/tui/plans.go:182-186 | with the deletion routed, the plans screen gets it and reloads the list |
| TuiApp.Classify | internal/tui/app.go:184-267 | each global key is recognised exactly by its own key string |
| TuiApp.Enter | internal/tui/app.go:192-194 | entering a screen remembers the current one |
| TuiApp.EscTarget | internal/tui/app.go:202-213 | esc returns from an overlay to the remembered screen, from reading to the chapter grid, and from the grid to the book list |
| TuiApp.ForwardKey | internal/tui/app.go:269-302 | a key the app does not take goes to the screen shown |
| TuiApp.GlobalKeyUpdate | internal/tui/app.go:184-302 | ctrl+c quits; q quits outside search; ? opens help; esc goes back; b shows the book list; /, m, s and p open their screens, remember the current one and load; s is ignored in search; other keys go to the screen |
| TuiApp.KeyUpdate | internal/tui/app.go:163-302 | a filtering book list takes every key; a focused search input takes every key but ctrl+c and esc; otherwise the global keys apply |
| TuiApp.OpenReading | internal/tui/app.go:81-91 | the reading screen of the chapter, its verses requested exactly when there is a database |
| TuiApp.OpenVerse | internal/tui/app.go:148-161 | a verse of a catalog book opens its chapter; an unknown code changes nothing |
| TuiApp.Update | internal/tui/app.go:59-305 | each message does what its case says, and only keys change the remembered screen; departing from the code, screen results go through the corrected `Route`, so a plan deletion reaches the plans screen instead of being dropped (see Findings) |
| TuiApp.QuitKeys | internal/tui/app.go:172-190 | ctrl+c always quits unless the book list is filtering; q quits exactly outside search |
| TuiApp.HelpThenEsc | internal/tui/app.go:191-205 | opening help and pressing esc returns to the screen help was opened from |
| TuiApp.SearchCapturesKeys | internal/tui/app.go:170-182 | opening search focuses its input, which takes b as typing, and esc leaves to the screen search came from |
| TuiApp.EscHistoryIsOneDeep | internal/tui/app.go:191-205 | the history is one screen deep: help over search over the book list leads back to search and no further |
| TuiApp.OverlayThenEsc | internal/tui/app.go:231-266 | bookmarks, settings and plans remember the screen they were opened from, and esc returns to it |

Arithmetic and sequence lemmas that only serve the proofs have no row: `McCheyne.MulSucc`, `McCheyne.MulAtMost`, `McCheyne.DivMono`, `McCheyne.InitLast`, `McCheyne.TakeSnoc`, `TuiPlans.DivBounds`, `TuiPlans.MulMono`, `TuiPlans.DivMono`, `TuiSettings.ModWrap`, `Search.SliceOfSlice`, `SearchCmd.Assoc3`, `McCheyne.ChainAppend`, `McCheyne.ChainHead`, `McCheyne.TrackChaptersChain`, and the generic `TextUtil` sequence lemmas.

## Left out

- The HTML tokeniser and DOM construction: the chapter parser takes the element tree as a value (`HtmlParser.Node`); character-set conversion of the page is not modelled.
- The network: the pages the site serves are a map from chapter to page or fetch error, and the HTTP client, its time-out and the rate limiter's timing are not modelled. The limiter and the fetch are kept only as points where cancellation is observed.
- SQL: the database is a set of in-memory tables (books, checkpoints, verse and footnote rows, settings) with explicit failure sets. The full-text index's ranking and tokenisation are a parameter of the search model. `GetCrawlStatus`/`SetCrawlStatus` are not part of this model beyond the checkpoint map they read and write.
- Time: the number of days since a plan started is a parameter of the plan models, not computed from dates.
- Unicode: lower-casing is ASCII-only, and positions are counted in characters rather than UTF-8 bytes. The display width of wide characters (`runewidth`) is one column per character.
- Rendering: every `View` function, the help screen, the book-list screen's layout, styling with lipgloss and viewport scrolling are not modelled.
- Text-input widgets: a key that the screens hand to a text input is reported as the command `ToInput` and not followed further.
- The I/O half of `update` (downloading, unpacking and replacing the executable; cmd/update.go:112-249) and the cobra command wiring are not modelled.
- Child screens inside the application: a message routed to a child screen is reported as `Forward(screen)`. The screens' own update functions are modelled in their own modules.
- Crawl.Crawler.AttemptChapter: the `error` checkpoint records the status and a verse count of 0, but not the failure's message text (internal/crawler/crawler.go:118); errors are kinds (`Crawl.CrawlError`), not formatted strings.
- Crawl.Env: a fault in writing a chapter's checkpoint (`statusFaults`) is one per chapter and applies to both its `done` write and its `error` write; a footnote-insert fault (`noteFaults`) and a verse-read fault during validation (`readFaults`) are also one per chapter, not per row.
- The crawler's parser is a field of its environment (`Crawl.Env.parse`), so the loop's lemmas hold for any parser; the crawler uses `HtmlParser`'s.
- Search.CountMatches, Search.Matches, Search.ToResults, Search.SearchRows, Search.SearchWithinLimit, SearchCmd.HighlightMarksMatches: require a non-empty query. With an empty query the source's `countMatches` would never advance, and every caller returns before searching for one.
- Update.ParseDecorated: requires a version without spaces, as release tags are; a version with a space would be cut at it by `parseCurrentVersion`.
- Update.SameReleaseIsLatest: stated for a version without a leading "v" and without spaces.
- TuiPlans.FormatEntryRefReadsBack: stated for chapter numbers within the non-negative 64-bit range.
- Settings.SaveThenLoad: stated for a configuration whose font size fits in 64 bits and whose theme and version are not empty (an empty one loads back as the default).
- TuiSearch.UpdateList, TuiBookmarks.DeleteSelected, TuiBookmarks.GoToSelected: a negative selection gives no command, where the source would index out of range; the screens never make the selection negative.

## Code and tests

- The tests of the application (internal/tui/app_test.go:73-82) expect `/` followed by `b` to open the book list. In the code the search screen keeps the key focus once opened, so `b` is typed into the search input. The model follows the code (`TuiApp.SearchCapturesKeys`).
- `esc` returns to the previous screen, and the application remembers only one previous screen (`TuiApp.EscHistoryIsOneDeep`). The plans screen's own `esc` branches (internal/tui/plans.go:244-246, 268-270) are never reached through the application, which handles `esc` first (internal/tui/app.go:202-213).
- The comment on `McCheyneSchedule` (internal/bible/mcheyne.go:17) gives each day 2–4 reading sections. A day's slice of one track can cross a book boundary, and then that track contributes two entries, so the code can give a day more than four. The model follows the code and proves only the lower bound (`McCheyne.AtLeastTwoEntries`).
- The crawler's cancellation inside a chapter (in the rate limiter or the fetch) is recorded as that chapter's error; the crawl fails as cancelled at the next iteration's check, or completes when that chapter was the last (`Crawl.CancelInsideChapter`). The model follows the code.

## Findings

| source | as written | input that shows it | evidently intended | confidence | as-written member | corrected member |
|---|---|---|---|---|---|---|
| internal/tui/app.go:163-304 | the application's `Update` has no case for the plans screen's deletion result, so the message falls through to `return m, nil` and the plan list is not reloaded | press `d` on a plan in the plans list; the deletion succeeds and the deleted plan stays on screen | the deletion result reaches the plans screen, whose handler reloads the plans (internal/tui/plans.go:182-186) | not executed | TuiApp.PlanDeletionDroppedAsWritten | TuiApp.PlanDeletionReloads |
