/** The canonical book catalog: 66 books in canonical order with their codes,
    Korean names and abbreviations, testament tags and chapter counts, and the
    lookups over it. */
module Books {
  import opened Wrappers
  import opened TextUtil

  datatype BookInfo = BookInfo(
    code: string,         // English code: "gen", "exo", ...
    nameKo: string,       // Korean full name
    abbrevKo: string,     // Korean abbreviation
    testament: string,    // "old" or "new"
    chapterCount: int)

  /** The field a lookup compares against. */
  datatype Field = ByCode | ByName | ByAbbrev

  function FieldOf(b: BookInfo, f: Field): string {
    match f
    case ByCode => b.code
    case ByName => b.nameKo
    case ByAbbrev => b.abbrevKo
  }

  /** The `i`-th book of the catalog in canonical order (Genesis is 0). */
  function BookAt(i: nat): BookInfo
    requires i < 66
  {
    match i
    // Old Testament (39 books)
    case 0 => BookInfo("gen", "창세기", "창", "old", 50)
    case 1 => BookInfo("exo", "출애굽기", "출", "old", 40)
    case 2 => BookInfo("lev", "레위기", "레", "old", 27)
    case 3 => BookInfo("num", "민수기", "민", "old", 36)
    case 4 => BookInfo("deu", "신명기", "신", "old", 34)
    case 5 => BookInfo("jos", "여호수아", "수", "old", 24)
    case 6 => BookInfo("jdg", "사사기", "삿", "old", 21)
    case 7 => BookInfo("rut", "룻기", "룻", "old", 4)
    case 8 => BookInfo("1sa", "사무엘상", "삼상", "old", 31)
    case 9 => BookInfo("2sa", "사무엘하", "삼하", "old", 24)
    case 10 => BookInfo("1ki", "열왕기상", "왕상", "old", 22)
    case 11 => BookInfo("2ki", "열왕기하", "왕하", "old", 25)
    case 12 => BookInfo("1ch", "역대상", "대상", "old", 29)
    case 13 => BookInfo("2ch", "역대하", "대하", "old", 36)
    case 14 => BookInfo("ezr", "에스라", "스", "old", 10)
    case 15 => BookInfo("neh", "느헤미야", "느", "old", 13)
    case 16 => BookInfo("est", "에스더", "에", "old", 10)
    case 17 => BookInfo("job", "욥기", "욥", "old", 42)
    case 18 => BookInfo("psa", "시편", "시", "old", 150)
    case 19 => BookInfo("pro", "잠언", "잠", "old", 31)
    case 20 => BookInfo("ecc", "전도서", "전", "old", 12)
    case 21 => BookInfo("sng", "아가", "아", "old", 8)
    case 22 => BookInfo("isa", "이사야", "사", "old", 66)
    case 23 => BookInfo("jer", "예레미야", "렘", "old", 52)
    case 24 => BookInfo("lam", "예레미야애가", "애", "old", 5)
    case 25 => BookInfo("ezk", "에스겔", "겔", "old", 48)
    case 26 => BookInfo("dan", "다니엘", "단", "old", 12)
    case 27 => BookInfo("hos", "호세아", "호", "old", 14)
    case 28 => BookInfo("jol", "요엘", "욜", "old", 3)
    case 29 => BookInfo("amo", "아모스", "암", "old", 9)
    case 30 => BookInfo("oba", "오바댜", "옵", "old", 1)
    case 31 => BookInfo("jnh", "요나", "욘", "old", 4)
    case 32 => BookInfo("mic", "미가", "미", "old", 7)
    case 33 => BookInfo("nam", "나훔", "나", "old", 3)
    case 34 => BookInfo("hab", "하박국", "합", "old", 3)
    case 35 => BookInfo("zep", "스바냐", "습", "old", 3)
    case 36 => BookInfo("hag", "학개", "학", "old", 2)
    case 37 => BookInfo("zec", "스가랴", "슥", "old", 14)
    case 38 => BookInfo("mal", "말라기", "말", "old", 4)
    // New Testament (27 books)
    case 39 => BookInfo("mat", "마태복음", "마", "new", 28)
    case 40 => BookInfo("mrk", "마가복음", "막", "new", 16)
    case 41 => BookInfo("luk", "누가복음", "눅", "new", 24)
    case 42 => BookInfo("jhn", "요한복음", "요", "new", 21)
    case 43 => BookInfo("act", "사도행전", "행", "new", 28)
    case 44 => BookInfo("rom", "로마서", "롬", "new", 16)
    case 45 => BookInfo("1co", "고린도전서", "고전", "new", 16)
    case 46 => BookInfo("2co", "고린도후서", "고후", "new", 13)
    case 47 => BookInfo("gal", "갈라디아서", "갈", "new", 6)
    case 48 => BookInfo("eph", "에베소서", "엡", "new", 6)
    case 49 => BookInfo("php", "빌립보서", "빌", "new", 4)
    case 50 => BookInfo("col", "골로새서", "골", "new", 4)
    case 51 => BookInfo("1th", "데살로니가전서", "살전", "new", 5)
    case 52 => BookInfo("2th", "데살로니가후서", "살후", "new", 3)
    case 53 => BookInfo("1ti", "디모데전서", "딤전", "new", 6)
    case 54 => BookInfo("2ti", "디모데후서", "딤후", "new", 4)
    case 55 => BookInfo("tit", "디도서", "딛", "new", 3)
    case 56 => BookInfo("phm", "빌레몬서", "몬", "new", 1)
    case 57 => BookInfo("heb", "히브리서", "히", "new", 13)
    case 58 => BookInfo("jas", "야고보서", "약", "new", 5)
    case 59 => BookInfo("1pe", "베드로전서", "벧전", "new", 5)
    case 60 => BookInfo("2pe", "베드로후서", "벧후", "new", 3)
    case 61 => BookInfo("1jn", "요한1서", "요일", "new", 5)
    case 62 => BookInfo("2jn", "요한2서", "요이", "new", 1)
    case 63 => BookInfo("3jn", "요한3서", "요삼", "new", 1)
    case 64 => BookInfo("jud", "유다서", "유", "new", 1)
    case _ => BookInfo("rev", "요한계시록", "계", "new", 22)
  }

  /** `AllBooks`: the catalog, 66 books in canonical order. */
  function AllBooks(): (r: seq<BookInfo>)
    ensures |r| == 66 && forall i :: 0 <= i < 66 ==> r[i] == BookAt(i)
  {
    seq(66, i requires 0 <= i < 66 => BookAt(i))
  }

  /** Position of the first book at or after `from` whose field `f` equals `key`. */
  function FirstMatch(books: seq<BookInfo>, f: Field, key: string, from: nat): (r: Option<nat>)
    requires from <= |books|
    ensures r.Some? ==> from <= r.value < |books| && FieldOf(books[r.value], f) == key
    ensures r.Some? ==> forall j :: from <= j < r.value ==> FieldOf(books[j], f) != key
    ensures r.None? <==> forall j :: from <= j < |books| ==> FieldOf(books[j], f) != key
    decreases |books| - from
  {
    if from == |books| then None
    else if FieldOf(books[from], f) == key then Some(from)
    else FirstMatch(books, f, key, from + 1)
  }

  /** The first catalog entry whose field `f` is exactly `key`. */
  function Lookup(f: Field, key: string): (r: Option<BookInfo>)
    ensures r.Some? ==> exists i :: 0 <= i < |AllBooks()| && AllBooks()[i] == r.value
                          && FieldOf(r.value, f) == key
                          && forall j :: 0 <= j < i ==> FieldOf(AllBooks()[j], f) != key
    ensures r.None? <==> forall j :: 0 <= j < |AllBooks()| ==> FieldOf(AllBooks()[j], f) != key
  {
    match FirstMatch(AllBooks(), f, key, 0)
    case None => None
    case Some(i) => Some(AllBooks()[i])
  }

  /** The scan the three lookups share: the catalog in order, returning
      the first book whose field `f` is `key`. */
  method FindBook(f: Field, key: string) returns (r: Option<BookInfo>)
    ensures r == Lookup(f, key)
  {
    var books := AllBooks();
    var i := 0;
    while i < |books|
      invariant 0 <= i <= |books|
      invariant FirstMatch(books, f, key, i) == FirstMatch(books, f, key, 0)
    {
      if FieldOf(books[i], f) == key {
        return Some(books[i]);
      }
      i := i + 1;
    }
    return None;
  }

  /** `GetBookByCode`: case-insensitive, the key is lower-cased first. */
  function GetBookByCode(code: string): (r: Option<BookInfo>)
    ensures r.Some? ==> r.value in AllBooks() && r.value.code == ToLower(code)
    ensures r.None? <==> forall j :: 0 <= j < |AllBooks()| ==> AllBooks()[j].code != ToLower(code)
  {
    Lookup(ByCode, ToLower(code))
  }

  /** `GetBookByName`: exact match on the Korean name. */
  function GetBookByName(name: string): (r: Option<BookInfo>)
    ensures r.Some? ==> r.value in AllBooks() && r.value.nameKo == name
    ensures r.None? <==> forall j :: 0 <= j < |AllBooks()| ==> AllBooks()[j].nameKo != name
  {
    Lookup(ByName, name)
  }

  /** `GetBookByAbbrev`: exact match on the Korean abbreviation. */
  function GetBookByAbbrev(abbrev: string): (r: Option<BookInfo>)
    ensures r.Some? ==> r.value in AllBooks() && r.value.abbrevKo == abbrev
    ensures r.None? <==> forall j :: 0 <= j < |AllBooks()| ==> AllBooks()[j].abbrevKo != abbrev
  {
    Lookup(ByAbbrev, abbrev)
  }

  /** The catalog holds 66 books, the 39 of the old testament first. */
  lemma CatalogShape()
    ensures |AllBooks()| == 66
    ensures forall i :: 0 <= i < 39 ==> AllBooks()[i].testament == "old"
    ensures forall i :: 39 <= i < 66 ==> AllBooks()[i].testament == "new"
  {
  }

  /** Every book has between 1 and 150 chapters. */
  lemma CatalogChapterCounts()
    ensures forall i :: 0 <= i < 66 ==> 1 <= BookAt(i).chapterCount <= 150
  {
  }

  /** Every book has a non-empty code, name and abbreviation. */
  lemma CatalogNonEmpty()
    ensures forall i :: 0 <= i < 66 ==> BookAt(i).code != [] && BookAt(i).nameKo != [] && BookAt(i).abbrevKo != []
  {
  }

  /** Every book of the catalog has the properties above. */
  lemma CatalogMember(b: BookInfo)
    requires b in AllBooks()
    ensures 1 <= b.chapterCount <= 150 && b.code != [] && b.nameKo != [] && b.abbrevKo != []
  {
    CatalogChapterCounts();
    CatalogNonEmpty();
  }

  /** The first match is the book at `k` when no earlier book matches. */
  lemma LookupAt(f: Field, key: string, k: nat)
    requires k < 66 && FieldOf(BookAt(k), f) == key
    requires forall j :: 0 <= j < k ==> FieldOf(BookAt(j), f) != key
    ensures Lookup(f, key) == Some(BookAt(k))
  {
    var books := AllBooks();
    assert FieldOf(books[k], f) == key;
    assert forall j :: 0 <= j < k ==> FieldOf(books[j], f) != key;
  }

  lemma ExampleGen()
    ensures GetBookByCode("GEN") == Some(BookAt(0)) && BookAt(0).chapterCount == 50
  {
    assert ToLower("GEN") == "gen";
    LookupAt(ByCode, "gen", 0);
  }

  lemma ExamplePsa()
    ensures GetBookByCode("Psa") == Some(BookAt(18))
  {
    assert ToLower("Psa") == "psa";
    LookupAt(ByCode, "psa", 18);
  }

  lemma ExamplePsaChapters()
    ensures BookAt(18).chapterCount == 150
  {
  }

  lemma ExamplePsaName()
    ensures GetBookByName("시편") == Some(BookAt(18))
  {
    LookupAt(ByName, "시편", 18);
  }

  lemma ExampleMissing()
    ensures GetBookByCode("genesis") == None
  {
    assert ToLower("genesis") == "genesis";
    assert forall j :: 0 <= j < 66 ==> |BookAt(j).code| == 3;
  }

  // ---------------------------------------------------------------------
  // Codes are unique

  /** The code of catalog book `i`, found by halving the index range;
      `CodesMatchCatalog` ties it to the catalog. */
  function CodeAt(i: nat): string
    requires i < 66
  {
    if i < 33 then
      if i < 16 then
        if i < 8 then
          if i < 4 then
            if i < 2 then
              if i < 1 then
                "gen"
              else
                "exo"
            else
              if i < 3 then
                "lev"
              else
                "num"
          else
            if i < 6 then
              if i < 5 then
                "deu"
              else
                "jos"
            else
              if i < 7 then
                "jdg"
              else
                "rut"
        else
          if i < 12 then
            if i < 10 then
              if i < 9 then
                "1sa"
              else
                "2sa"
            else
              if i < 11 then
                "1ki"
              else
                "2ki"
          else
            if i < 14 then
              if i < 13 then
                "1ch"
              else
                "2ch"
            else
              if i < 15 then
                "ezr"
              else
                "neh"
      else
        if i < 24 then
          if i < 20 then
            if i < 18 then
              if i < 17 then
                "est"
              else
                "job"
            else
              if i < 19 then
                "psa"
              else
                "pro"
          else
            if i < 22 then
              if i < 21 then
                "ecc"
              else
                "sng"
            else
              if i < 23 then
                "isa"
              else
                "jer"
        else
          if i < 28 then
            if i < 26 then
              if i < 25 then
                "lam"
              else
                "ezk"
            else
              if i < 27 then
                "dan"
              else
                "hos"
          else
            if i < 30 then
              if i < 29 then
                "jol"
              else
                "amo"
            else
              if i < 31 then
                "oba"
              else
                if i < 32 then
                  "jnh"
                else
                  "mic"
    else
      if i < 49 then
        if i < 41 then
          if i < 37 then
            if i < 35 then
              if i < 34 then
                "nam"
              else
                "hab"
            else
              if i < 36 then
                "zep"
              else
                "hag"
          else
            if i < 39 then
              if i < 38 then
                "zec"
              else
                "mal"
            else
              if i < 40 then
                "mat"
              else
                "mrk"
        else
          if i < 45 then
            if i < 43 then
              if i < 42 then
                "luk"
              else
                "jhn"
            else
              if i < 44 then
                "act"
              else
                "rom"
          else
            if i < 47 then
              if i < 46 then
                "1co"
              else
                "2co"
            else
              if i < 48 then
                "gal"
              else
                "eph"
      else
        if i < 57 then
          if i < 53 then
            if i < 51 then
              if i < 50 then
                "php"
              else
                "col"
            else
              if i < 52 then
                "1th"
              else
                "2th"
          else
            if i < 55 then
              if i < 54 then
                "1ti"
              else
                "2ti"
            else
              if i < 56 then
                "tit"
              else
                "phm"
        else
          if i < 61 then
            if i < 59 then
              if i < 58 then
                "heb"
              else
                "jas"
            else
              if i < 60 then
                "1pe"
              else
                "2pe"
          else
            if i < 63 then
              if i < 62 then
                "1jn"
              else
                "2jn"
            else
              if i < 64 then
                "3jn"
              else
                if i < 65 then
                  "jud"
                else
                  "rev"
  }

  lemma CodesMatchCatalog()
    ensures forall i :: 0 <= i < 66 ==> BookAt(i).code == CodeAt(i)
  {
  }

  /** The lookup by code finds book `k` when its code is lower case and no
      earlier book has it. */
  lemma FoundAt(k: nat)
    requires k < 66 && ToLower(CodeAt(k)) == CodeAt(k)
    requires forall j :: 0 <= j < k ==> CodeAt(j) != CodeAt(k)
    ensures GetBookByCode(CodeAt(k)) == Some(BookAt(k))
  {
    CodesMatchCatalog();
    LookupAt(ByCode, CodeAt(k), k);
  }

  lemma CodesFoundFrom0()
    ensures forall k :: 0 <= k < 24 ==> GetBookByCode(CodeAt(k)) == Some(BookAt(k))
  {
    forall k | 0 <= k < 24
      ensures GetBookByCode(CodeAt(k)) == Some(BookAt(k))
    {
      FoundAt(k);
    }
  }

  lemma CodesFoundFrom24()
    ensures forall k :: 24 <= k < 36 ==> GetBookByCode(CodeAt(k)) == Some(BookAt(k))
  {
    forall k | 24 <= k < 36
      ensures GetBookByCode(CodeAt(k)) == Some(BookAt(k))
    {
      FoundAt(k);
    }
  }

  lemma CodesFoundFrom36()
    ensures forall k :: 36 <= k < 45 ==> GetBookByCode(CodeAt(k)) == Some(BookAt(k))
  {
    forall k | 36 <= k < 45
      ensures GetBookByCode(CodeAt(k)) == Some(BookAt(k))
    {
      FoundAt(k);
    }
  }

  lemma CodesFoundFrom45()
    ensures forall k :: 45 <= k < 52 ==> GetBookByCode(CodeAt(k)) == Some(BookAt(k))
  {
    forall k | 45 <= k < 52
      ensures GetBookByCode(CodeAt(k)) == Some(BookAt(k))
    {
      FoundAt(k);
    }
  }

  lemma CodesFoundFrom52()
    ensures forall k :: 52 <= k < 58 ==> GetBookByCode(CodeAt(k)) == Some(BookAt(k))
  {
    forall k | 52 <= k < 58
      ensures GetBookByCode(CodeAt(k)) == Some(BookAt(k))
    {
      FoundAt(k);
    }
  }

  lemma CodesFoundFrom58()
    ensures forall k :: 58 <= k < 63 ==> GetBookByCode(CodeAt(k)) == Some(BookAt(k))
  {
    forall k | 58 <= k < 63
      ensures GetBookByCode(CodeAt(k)) == Some(BookAt(k))
    {
      FoundAt(k);
    }
  }

  lemma CodesFoundFrom63()
    ensures forall k :: 63 <= k < 66 ==> GetBookByCode(CodeAt(k)) == Some(BookAt(k))
  {
    forall k | 63 <= k < 66
      ensures GetBookByCode(CodeAt(k)) == Some(BookAt(k))
    {
      FoundAt(k);
    }
  }

  /** Every book's code is found by the lookup, and finds that book: the
      codes are lower case and no two books share one. */
  lemma CodesFound()
    ensures forall k :: 0 <= k < 66 ==> GetBookByCode(BookAt(k).code) == Some(BookAt(k))
  {
    CodesMatchCatalog();
    CodesFoundFrom0();
    CodesFoundFrom24();
    CodesFoundFrom36();
    CodesFoundFrom45();
    CodesFoundFrom52();
    CodesFoundFrom58();
    CodesFoundFrom63();
  }

  // ---------------------------------------------------------------------
  // Chapter totals

  /** The chapter count of catalog book `i`, found by halving the index
      range; `CountsMatchCatalog` ties it to the catalog. */
  function ChapterCountAt(i: nat): nat
    requires i < 66
  {
    if i < 33 then
      if i < 16 then
        if i < 8 then
          if i < 4 then
            if i < 2 then
              if i < 1 then
                50
              else
                40
            else
              if i < 3 then
                27
              else
                36
          else
            if i < 6 then
              if i < 5 then
                34
              else
                24
            else
              if i < 7 then
                21
              else
                4
        else
          if i < 12 then
            if i < 10 then
              if i < 9 then
                31
              else
                24
            else
              if i < 11 then
                22
              else
                25
          else
            if i < 14 then
              if i < 13 then
                29
              else
                36
            else
              if i < 15 then
                10
              else
                13
      else
        if i < 24 then
          if i < 20 then
            if i < 18 then
              if i < 17 then
                10
              else
                42
            else
              if i < 19 then
                150
              else
                31
          else
            if i < 22 then
              if i < 21 then
                12
              else
                8
            else
              if i < 23 then
                66
              else
                52
        else
          if i < 28 then
            if i < 26 then
              if i < 25 then
                5
              else
                48
            else
              if i < 27 then
                12
              else
                14
          else
            if i < 30 then
              if i < 29 then
                3
              else
                9
            else
              if i < 31 then
                1
              else
                if i < 32 then
                  4
                else
                  7
    else
      if i < 49 then
        if i < 41 then
          if i < 37 then
            if i < 35 then
              if i < 34 then
                3
              else
                3
            else
              if i < 36 then
                3
              else
                2
          else
            if i < 39 then
              if i < 38 then
                14
              else
                4
            else
              if i < 40 then
                28
              else
                16
        else
          if i < 45 then
            if i < 43 then
              if i < 42 then
                24
              else
                21
            else
              if i < 44 then
                28
              else
                16
          else
            if i < 47 then
              if i < 46 then
                16
              else
                13
            else
              if i < 48 then
                6
              else
                6
      else
        if i < 57 then
          if i < 53 then
            if i < 51 then
              if i < 50 then
                4
              else
                4
            else
              if i < 52 then
                5
              else
                3
          else
            if i < 55 then
              if i < 54 then
                6
              else
                4
            else
              if i < 56 then
                3
              else
                1
        else
          if i < 61 then
            if i < 59 then
              if i < 58 then
                13
              else
                5
            else
              if i < 60 then
                5
              else
                3
          else
            if i < 63 then
              if i < 62 then
                5
              else
                1
            else
              if i < 64 then
                1
              else
                if i < 65 then
                  1
                else
                  22
  }

  lemma CountsMatchCatalog()
    ensures forall i :: 0 <= i < 66 ==> BookAt(i).chapterCount == ChapterCountAt(i)
  {
  }

  /** How many chapters catalog books `i` to the last have together. */
  function SuffixChapters(i: nat): nat
    decreases 66 - i
  {
    if i >= 66 then 0 else ChapterCountAt(i) + SuffixChapters(i + 1)
  }

  lemma SuffixStep(i: nat)
    requires i < 66
    ensures SuffixChapters(i) == ChapterCountAt(i) + SuffixChapters(i + 1)
  {
  }

  /** The last 22 books, Romans to Revelation, have 143 chapters. */
  lemma ChaptersFrom44()
    ensures SuffixChapters(44) == 143
  {
    SuffixStep(65);
    SuffixStep(64);
    SuffixStep(63);
    SuffixStep(62);
    SuffixStep(61);
    SuffixStep(60);
    SuffixStep(59);
    SuffixStep(58);
    SuffixStep(57);
    SuffixStep(56);
    SuffixStep(55);
    SuffixStep(54);
    SuffixStep(53);
    SuffixStep(52);
    SuffixStep(51);
    SuffixStep(50);
    SuffixStep(49);
    SuffixStep(48);
    SuffixStep(47);
    SuffixStep(46);
    SuffixStep(45);
    SuffixStep(44);
  }

  /** The last 23 books, Acts to Revelation, have 171 chapters. */
  lemma ChaptersFrom43()
    ensures SuffixChapters(43) == 171
  {
    ChaptersFrom44();
    SuffixStep(43);
  }

  /** The last 44 books, Isaiah to Revelation, have 510 chapters. */
  lemma ChaptersFrom22()
    ensures SuffixChapters(22) == 510
  {
    ChaptersFrom43();
    SuffixStep(42);
    SuffixStep(41);
    SuffixStep(40);
    SuffixStep(39);
    SuffixStep(38);
    SuffixStep(37);
    SuffixStep(36);
    SuffixStep(35);
    SuffixStep(34);
    SuffixStep(33);
    SuffixStep(32);
    SuffixStep(31);
    SuffixStep(30);
    SuffixStep(29);
    SuffixStep(28);
    SuffixStep(27);
    SuffixStep(26);
    SuffixStep(25);
    SuffixStep(24);
    SuffixStep(23);
    SuffixStep(22);
  }

  /** The last 49 books, Job to Revelation, have 753 chapters. */
  lemma ChaptersFrom17()
    ensures SuffixChapters(17) == 753
  {
    ChaptersFrom22();
    SuffixStep(21);
    SuffixStep(20);
    SuffixStep(19);
    SuffixStep(18);
    SuffixStep(17);
  }

  /** The catalog has 1189 chapters. */
  lemma ChaptersFrom0()
    ensures SuffixChapters(0) == 1189
  {
    ChaptersFrom17();
    SuffixStep(16);
    SuffixStep(15);
    SuffixStep(14);
    SuffixStep(13);
    SuffixStep(12);
    SuffixStep(11);
    SuffixStep(10);
    SuffixStep(9);
    SuffixStep(8);
    SuffixStep(7);
    SuffixStep(6);
    SuffixStep(5);
    SuffixStep(4);
    SuffixStep(3);
    SuffixStep(2);
    SuffixStep(1);
    SuffixStep(0);
  }
}
