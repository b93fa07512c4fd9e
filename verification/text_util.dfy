/** The handful of Go standard-library string operations the core relies on,
    modelled over sequences of characters.

    A Go string is a sequence of bytes; here it is a sequence of characters, and
    byte offsets are character offsets.  Case mapping covers ASCII letters only. */
module TextUtil {
  import opened Wrappers

  const MinInt64: int := -0x8000_0000_0000_0000
  const MaxInt64: int := 0x7fff_ffff_ffff_ffff

  /** Go's `unicode.IsSpace`, the set `strings.TrimSpace` and `strings.Fields` use. */
  predicate IsSpace(c: char) {
    c == '\t' || c == '\n' || c == '\U{000B}' || c == '\U{000C}' || c == '\r' || c == ' '
    || c == '\U{0085}' || c == '\U{00A0}' || c == '\U{1680}'
    || ('\U{2000}' <= c <= '\U{200A}')
    || c == '\U{2028}' || c == '\U{2029}' || c == '\U{202F}' || c == '\U{205F}' || c == '\U{3000}'
  }

  /** The RE2 class `\s`: tab, newline, form feed, carriage return and space. */
  predicate IsRegexSpace(c: char) {
    c == '\t' || c == '\n' || c == '\U{000C}' || c == '\r' || c == ' '
  }

  predicate IsDigit(c: char) {
    '0' <= c <= '9'
  }

  predicate AllDigits(s: string) {
    forall i :: 0 <= i < |s| ==> IsDigit(s[i])
  }

  predicate AllSpace(s: string) {
    forall i :: 0 <= i < |s| ==> IsSpace(s[i])
  }

  /** `strings.TrimLeft` with the space set: drops the leading spaces. */
  function TrimLeft(s: string): (r: string)
    ensures |r| <= |s| && r == s[|s| - |r|..]
    ensures r == [] || !IsSpace(r[0])
    ensures forall i :: 0 <= i < |s| - |r| ==> IsSpace(s[i])
    decreases |s|
  {
    if |s| > 0 && IsSpace(s[0]) then TrimLeft(s[1..]) else s
  }

  /** Drops the trailing spaces. */
  function TrimRight(s: string): (r: string)
    ensures |r| <= |s| && r == s[..|r|]
    ensures r == [] || !IsSpace(r[|r| - 1])
    ensures forall i :: |r| <= i < |s| ==> IsSpace(s[i])
    decreases |s|
  {
    if |s| > 0 && IsSpace(s[|s| - 1]) then TrimRight(s[..|s| - 1]) else s
  }

  /** Cutting a sequence at `k` and joining the halves gives it back. */
  lemma SplitAt<T>(s: seq<T>, k: nat)
    requires k <= |s|
    ensures s[..k] + s[k..] == s
  {
  }

  /** Concatenation is associative. */
  lemma AppendAssoc<T>(a: seq<T>, b: seq<T>, c: seq<T>)
    ensures (a + b) + c == a + (b + c)
  {
  }

  lemma SliceSplit<T>(s: seq<T>, a: nat, b: nat, c: nat)
    requires a <= b <= c <= |s|
    ensures s[a..b] + s[b..c] == s[a..c]
  {
  }

  /** `strings.TrimSpace`. */
  function TrimSpace(s: string): (r: string)
    ensures |r| <= |s|
    ensures r == [] || (!IsSpace(r[0]) && !IsSpace(r[|r| - 1]))
    ensures r == [] <==> AllSpace(s)
    ensures AllSpace(s) ==> r == []
  {
    var t := TrimLeft(s);
    assert AllSpace(s) ==> t == [];
    TrimRight(t)
  }

  /** The trimmed text is the middle of `s`: it starts where the leading
      spaces end (`t` is the rest of `s` from there), it is a prefix of that
      rest, and everything after it is space. */
  lemma TrimSpaceMiddle(s: string)
    ensures var t := TrimLeft(s); var i := |s| - |t|; var r := TrimSpace(s);
      && t == s[i..] && |r| <= |t| && r == t[..|r|]
      && (forall k :: 0 <= k < i ==> IsSpace(s[k]))
      && (forall k :: |r| <= k < |t| ==> IsSpace(t[k]))
  {
  }

  /** A string with no space at either end is its own trim. */
  lemma TrimSpaceTrimmed(s: string)
    requires s != [] && !IsSpace(s[0]) && !IsSpace(s[|s| - 1])
    ensures TrimSpace(s) == s
  {
  }

  /** `strings.ToLower` restricted to ASCII letters; every other character is kept. */
  function ToLowerChar(c: char): (r: char)
    ensures IsDigit(c) ==> r == c
  {
    if 'A' <= c <= 'Z' then (c as int + 32) as char else c
  }

  function ToLower(s: string): (r: string)
    ensures |r| == |s|
    ensures forall i :: 0 <= i < |s| ==> r[i] == ToLowerChar(s[i])
  {
    seq(|s|, i requires 0 <= i < |s| => ToLowerChar(s[i]))
  }

  /** `pat` occurs in `s` at position `i`. */
  predicate OccursAt(s: string, pat: string, i: int) {
    0 <= i && i + |pat| <= |s| && s[i..i + |pat|] == pat
  }

  /** First occurrence of `pat` in `s` at or after `from`, or -1. */
  function IndexFrom(s: string, pat: string, from: nat): (r: int)
    requires from <= |s|
    ensures r == -1 || (from <= r && r + |pat| <= |s|)
    decreases |s| - from
  {
    if OccursAt(s, pat, from) then from
    else if from == |s| then -1
    else IndexFrom(s, pat, from + 1)
  }

  /** `IndexFrom` finds the first occurrence at or after `from`, and -1
      exactly when there is none. */
  lemma {:induction false} IndexFromSpec(s: string, pat: string, from: nat)
    requires from <= |s|
    ensures var r := IndexFrom(s, pat, from);
      && (r == -1 || OccursAt(s, pat, r))
      && (r == -1 ==> forall j :: from <= j <= |s| ==> !OccursAt(s, pat, j))
      && (r != -1 ==> forall j :: from <= j < r ==> !OccursAt(s, pat, j))
    decreases |s| - from
  {
    if !OccursAt(s, pat, from) && from < |s| {
      IndexFromSpec(s, pat, from + 1);
    }
  }

  /** `strings.Index`: the first occurrence of `pat` in `s`, or -1. */
  function Index(s: string, pat: string): (r: int)
    ensures r == -1 || (0 <= r && r + |pat| <= |s|)
  {
    IndexFrom(s, pat, 0)
  }

  /** `Index` is -1 exactly when `pat` does not occur in `s`, and otherwise
      the first place it occurs. */
  lemma IndexSpec(s: string, pat: string)
    ensures var r := Index(s, pat);
      && (r == -1 <==> forall j :: 0 <= j <= |s| ==> !OccursAt(s, pat, j))
      && (r != -1 ==> OccursAt(s, pat, r) && forall j :: 0 <= j < r ==> !OccursAt(s, pat, j))
  {
    IndexFromSpec(s, pat, 0);
  }

  /** Searching the suffix from `pos` is searching the whole string from
      `pos` on, with positions counted from `pos`. */
  lemma {:induction false} IndexFromShift(s: string, pat: string, pos: nat, k: nat)
    requires pos + k <= |s|
    ensures IndexFrom(s[pos..], pat, k) == (if IndexFrom(s, pat, pos + k) == -1 then -1 else IndexFrom(s, pat, pos + k) - pos)
    decreases |s| - pos - k
  {
    var t := s[pos..];
    if k + |pat| <= |t| {
      assert t[k..k + |pat|] == s[pos + k..pos + k + |pat|];
    }
    assert OccursAt(t, pat, k) == OccursAt(s, pat, pos + k);
    if !OccursAt(t, pat, k) && pos + k < |s| {
      IndexFromShift(s, pat, pos, k + 1);
    }
  }

  /** `strings.Index` on the suffix from `pos` finds the first occurrence at
      or after `pos`, counted from `pos`. */
  lemma IndexSlice(s: string, pat: string, pos: nat)
    requires pos <= |s|
    ensures Index(s[pos..], pat) == (if IndexFrom(s, pat, pos) == -1 then -1 else IndexFrom(s, pat, pos) - pos)
  {
    IndexFromShift(s, pat, pos, 0);
  }

  lemma ToLowerIdempotent(s: string)
    ensures ToLower(ToLower(s)) == ToLower(s)
  {
  }

  /** `strings.Contains`. */
  predicate Contains(s: string, pat: string) {
    Index(s, pat) != -1
  }

  /** `strings.TrimPrefix`. */
  function TrimPrefix(s: string, prefix: string): (r: string)
    ensures |r| <= |s| && r == s[|s| - |r|..]
    ensures prefix <= s ==> r == s[|prefix|..]
    ensures !(prefix <= s) ==> r == s
  {
    if |prefix| <= |s| && s[..|prefix|] == prefix then s[|prefix|..] else s
  }

  /** `strings.ReplaceAll(s, string(c), "")`. */
  function RemoveChar(s: string, c: char): (r: string)
    ensures c !in r
    ensures c !in s ==> r == s
    ensures multiset(r) == multiset(s)[c := 0]
  {
    if s == [] then []
    else
      var h := if s[0] == c then [] else [s[0]];
      assert s == [s[0]] + s[1..];
      h + RemoveChar(s[1..], c)
  }

  /** A leading character is dropped when it is `c` and kept otherwise. */
  lemma RemoveCharCons(x: char, s: string, c: char)
    ensures RemoveChar([x] + s, c) == (if x == c then [] else [x]) + RemoveChar(s, c)
  {
    assert ([x] + s)[1..] == s;
  }

  /** Removing from a concatenation is removing from each part; with
      `RemoveCharCons` this says every other character stays, in its order. */
  lemma {:induction false} RemoveCharConcat(a: string, b: string, c: char)
    ensures RemoveChar(a + b, c) == RemoveChar(a, c) + RemoveChar(b, c)
    decreases |a|
  {
    if a == [] {
      assert a + b == b;
    } else {
      var x, a' := a[0], a[1..];
      assert a == [x] + a';
      assert a + b == [x] + (a' + b);
      RemoveCharConcat(a', b, c);
      RemoveCharCons(x, a' + b, c);
      RemoveCharCons(x, a', c);
      AppendAssoc(if x == c then [] else [x], RemoveChar(a', c), RemoveChar(b, c));
    }
  }

  /** `strings.Repeat(string(c), n)`. */
  function RepeatChar(c: char, n: nat): (r: string)
    ensures |r| == n
    ensures forall i :: 0 <= i < n ==> r[i] == c
  {
    seq(n, _ => c)
  }

  /** The longest prefix of `s` that holds no space. */
  function Word(s: string): (r: string)
    ensures |r| <= |s| && r == s[..|r|]
    ensures forall i :: 0 <= i < |r| ==> !IsSpace(r[i])
    ensures |r| == |s| || IsSpace(s[|r|])
  {
    if |s| == 0 || IsSpace(s[0]) then [] else [s[0]] + Word(s[1..])
  }

  /** `strings.Fields`: the maximal runs of non-space characters, in order. */
  function Fields(s: string): (r: seq<string>)
    ensures forall k :: 0 <= k < |r| ==> r[k] != [] && forall i :: 0 <= i < |r[k]| ==> !IsSpace(r[k][i])
    ensures AllSpace(s) <==> r == []
    decreases |s|
  {
    if s == [] then []
    else if IsSpace(s[0]) then Fields(s[1..])
    else
      var w := Word(s);
      [w] + Fields(s[|w|..])
  }

  /** A non-empty run of non-space characters is a single field. */
  lemma {:induction false} FieldsWord(w: string)
    requires w != [] && forall i :: 0 <= i < |w| ==> !IsSpace(w[i])
    ensures Fields(w) == [w]
  {
    WordWhole(w);
    assert w[|w|..] == [];
  }

  lemma {:induction false} WordWhole(w: string)
    requires forall i :: 0 <= i < |w| ==> !IsSpace(w[i])
    ensures Word(w) == w
    decreases |w|
  {
    if w != [] {
      WordWhole(w[1..]);
    }
  }

  /** `s` starts with a non-space character. */
  predicate StartsWord(s: string) {
    s != [] && !IsSpace(s[0])
  }

  /** A leading space contributes no field. */
  lemma FieldsSpaceCons(x: char, s: string)
    requires IsSpace(x)
    ensures Fields([x] + s) == Fields(s)
  {
    assert ([x] + s)[1..] == s;
  }

  /** A leading non-space character joins the first field of the rest when
      the rest starts with one, and is a field of its own otherwise. */
  lemma FieldsWordCons(x: char, s: string)
    requires !IsSpace(x)
    ensures StartsWord(s) ==> Fields(s) != [] && Fields([x] + s) == [[x] + Fields(s)[0]] + Fields(s)[1..]
    ensures !StartsWord(s) ==> Fields([x] + s) == [[x]] + Fields(s)
  {
    var xs := [x] + s;
    assert xs[1..] == s;
    var w := Word(s);
    assert Word(xs) == [x] + w;
    assert xs[|[x] + w|..] == s[|w|..];
    if !StartsWord(s) {
      assert w == [];
      assert s[|w|..] == s;
    }
  }

  /** Splitting at a space splits the fields: `Fields(a + " " + b)` is the
      fields of `a` followed by the fields of `b`. With `FieldsWord` and the
      all-space case this determines every field and its order. */
  lemma {:induction false} FieldsSplit(a: string, c: char, b: string)
    requires IsSpace(c)
    ensures Fields(a + [c] + b) == Fields(a) + Fields(b)
    decreases |a|
  {
    if a == [] {
      assert a + [c] + b == [c] + b;
      FieldsSpaceCons(c, b);
    } else {
      var x, a' := a[0], a[1..];
      assert a == [x] + a';
      assert a + [c] + b == [x] + (a' + [c] + b);
      FieldsSplit(a', c, b);
      if IsSpace(x) {
        FieldsSpaceCons(x, a' + [c] + b);
        FieldsSpaceCons(x, a');
      } else {
        FieldsSplitWordCons(x, a', c, b);
      }
    }
  }

  /** The step of `FieldsSplit` for a leading non-space character. */
  lemma FieldsSplitWordCons(x: char, a: string, c: char, b: string)
    requires !IsSpace(x) && IsSpace(c)
    requires Fields(a + [c] + b) == Fields(a) + Fields(b)
    ensures Fields([x] + (a + [c] + b)) == Fields([x] + a) + Fields(b)
  {
    var rest := a + [c] + b;
    FieldsWordCons(x, rest);
    FieldsWordCons(x, a);
    assert StartsWord(rest) <==> StartsWord(a) by {
      if a == [] {
        assert rest[0] == c;
      } else {
        assert rest[0] == a[0];
      }
    }
    if StartsWord(a) {
      JoinHead([x], Fields(rest), Fields(a), Fields(b), Fields([x] + rest), Fields([x] + a));
    } else {
      JoinFront([x], Fields(rest), Fields(a), Fields(b), Fields([x] + rest), Fields([x] + a));
    }
  }

  /** Extending the first field commutes with appending more fields. */
  lemma JoinHead<T>(y: seq<T>, H: seq<seq<T>>, F: seq<seq<T>>, G: seq<seq<T>>, L: seq<seq<T>>, R: seq<seq<T>>)
    requires H == F + G && F != []
    requires L == [y + H[0]] + H[1..] && R == [y + F[0]] + F[1..]
    ensures L == R + G
  {
    assert H[0] == F[0];
    assert H[1..] == F[1..] + G;
  }

  /** Adding a first field commutes with appending more fields. */
  lemma JoinFront<T>(y: seq<T>, H: seq<seq<T>>, F: seq<seq<T>>, G: seq<seq<T>>, L: seq<seq<T>>, R: seq<seq<T>>)
    requires H == F + G
    requires L == [y] + H && R == [y] + F
    ensures L == R + G
  {
  }

  /** Decimal value of a string of ASCII digits. */
  function DigitsValue(s: string): nat
    requires AllDigits(s)
  {
    if s == [] then 0 else DigitsValue(s[..|s| - 1]) * 10 + (s[|s| - 1] as int - '0' as int)
  }

  function DigitChar(d: nat): (c: char)
    requires d < 10
    ensures IsDigit(c) && c as int - '0' as int == d
  {
    ('0' as int + d) as char
  }

  /** Decimal digits of a natural number, most significant first. */
  function Digits(n: nat): (r: string)
    ensures |r| >= 1 && AllDigits(r)
    ensures DigitsValue(r) == n
    decreases n
  {
    if n < 10 then [DigitChar(n)]
    else
      var r := Digits(n / 10) + [DigitChar(n % 10)];
      assert r[..|r| - 1] == Digits(n / 10);
      r
  }

  /** `strconv.Itoa`. */
  function Itoa(n: int): (r: string)
    ensures |r| >= 1
    ensures n >= 0 <==> IsDigit(r[0])
  {
    if n < 0 then "-" + Digits(-n) else Digits(n)
  }

  /** An optional sign followed by at least one ASCII digit. */
  predicate SignedDecimal(s: string) {
    if |s| >= 1 && (s[0] == '-' || s[0] == '+') then |s| >= 2 && AllDigits(s[1..])
    else |s| >= 1 && AllDigits(s)
  }

  /** The value a signed decimal string denotes. */
  function SignedValue(s: string): int
    requires SignedDecimal(s)
  {
    if s[0] == '-' then 0 - DigitsValue(s[1..])
    else if s[0] == '+' then DigitsValue(s[1..])
    else DigitsValue(s)
  }

  /** `strconv.Atoi`: an optional sign and at least one ASCII digit, within the
      64-bit range; anything else is an error. */
  function Atoi(s: string): (r: Option<int>)
    ensures r.Some? ==> MinInt64 <= r.value <= MaxInt64
    ensures s == [] ==> r.None?
    ensures AllDigits(s) && s != [] && DigitsValue(s) <= MaxInt64 ==> r == Some(DigitsValue(s))
    ensures r.Some? <==> SignedDecimal(s) && MinInt64 <= SignedValue(s) <= MaxInt64
    ensures r.Some? ==> SignedDecimal(s) && r.value == SignedValue(s)
    ensures s == "-" || s == "+" ==> r.None?
  {
    if |s| == 0 then None
    else if s[0] == '-' || s[0] == '+' then
      var d := s[1..];
      if |d| == 0 || !AllDigits(d) then None
      else
        var v: int := if s[0] == '-' then 0 - DigitsValue(d) as int else DigitsValue(d);
        if MinInt64 <= v <= MaxInt64 then Some(v) else None
    else if !AllDigits(s) then None
    else
      var v := DigitsValue(s);
      if v <= MaxInt64 then Some(v) else None
  }

  /** The inputs `Atoi` rejects, and what a negative number reads as. */
  lemma AtoiCases(s: string)
    ensures s != [] && s[0] != '-' && s[0] != '+' && !AllDigits(s) ==> Atoi(s).None?
    ensures s != [] && AllDigits(s) && DigitsValue(s) > MaxInt64 ==> Atoi(s).None?
    ensures |s| >= 1 && (s[0] == '-' || s[0] == '+') && !AllDigits(s[1..]) ==> Atoi(s).None?
    ensures |s| >= 2 && s[0] == '+' && AllDigits(s[1..]) && DigitsValue(s[1..]) > MaxInt64 ==> Atoi(s).None?
    ensures |s| >= 2 && s[0] == '-' && AllDigits(s[1..]) && DigitsValue(s[1..]) > 0 - MinInt64 ==> Atoi(s).None?
    ensures |s| >= 2 && s[0] == '-' && AllDigits(s[1..]) && DigitsValue(s[1..]) <= 0 - MinInt64 ==>
      Atoi(s) == Some(0 - DigitsValue(s[1..]))
  {
  }

  /** Formatting a 64-bit integer in decimal and parsing it back gives it back. */
  lemma AtoiItoa(n: int)
    requires MinInt64 <= n <= MaxInt64
    ensures Atoi(Itoa(n)) == Some(n)
  {
    if n < 0 {
      var s := Itoa(n);
      assert s[1..] == Digits(-n);
    }
  }
}
