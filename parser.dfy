/**
 * Parsing of a typed scripture reference such as `1 John 3:16-18 KJV`
 * (src/features/scripture/lib/parser.ts).
 *
 * The regular expression of the source is given here as a grammar: a
 * `RefMatch` records the pieces the expression captures, `WellFormed` and
 * `Render` say which texts have that shape, and `MatchReference` scans a text
 * for it. `MatchUnique` proves the scanner returns exactly the one
 * well-formed record that renders to the text, so the rest of the parser can
 * be read off the shape.
 */
module ReferenceParser {
  import opened Wrappers
  import opened Text
  import opened ScriptureDb

  /** `:start` and an optional `-end` after the chapter. */
  datatype VerseRaw = VerseRaw(start: string, end: Option<string>)

  /** The whitespace before a version code, and the code. */
  datatype VersionRaw = VersionRaw(gap: string, code: string)

  /**
   * The captures of a match. The book group is greedy, so the whitespace
   * between book and chapter that is not part of the book is one character.
   */
  datatype RefMatch = RefMatch(book: string, sep: char, chapter: string,
                               verses: Option<VerseRaw>, version: Option<VersionRaw>)

  /** An optional leading `1`..`3`, then a non-empty run of letters and whitespace. */
  predicate IsBookToken(b: string) {
    |b| > 0 && if '1' <= b[0] <= '3' then |b| > 1 && AllLetterOrSpace(b[1..]) else AllLetterOrSpace(b)
  }

  predicate WellFormed(m: RefMatch) {
    && IsBookToken(m.book)
    && IsSpace(m.sep)
    && IsDigitRun(m.chapter)
    && (m.verses.Some? ==> IsDigitRun(m.verses.value.start)
                           && (m.verses.value.end.Some? ==> IsDigitRun(m.verses.value.end.value)))
    && (m.version.Some? ==> |m.version.value.gap| > 0 && AllSpace(m.version.value.gap)
                            && |m.version.value.code| > 0 && AllAlnum(m.version.value.code))
  }

  function VersesText(v: Option<VerseRaw>): string {
    match v
    case None => ""
    case Some(VerseRaw(s, e)) => ":" + s + (if e.Some? then "-" + e.value else "")
  }

  function VersionText(v: Option<VersionRaw>): string {
    if v.Some? then v.value.gap + v.value.code else ""
  }

  /** The text a record stands for. */
  function Render(m: RefMatch): string {
    m.book + [m.sep] + m.chapter + VersesText(m.verses) + VersionText(m.version)
  }

  /** The trailing version part, if the text from `q` on is empty or `\s+[A-Za-z0-9]+`. */
  function MatchVersion(t: string, q: nat): Option<Option<VersionRaw>>
    requires q <= |t|
  {
    if q == |t| then Some(None)
    else
      var g := SkipSpaces(t, q);
      var a := SkipAlnum(t, g);
      if g == q || a == g || a < |t| then None else Some(Some(VersionRaw(t[q..g], t[g..])))
  }

  /** The optional `:digits(-digits)?` part at `e`, with the position after it. */
  function MatchVerses(t: string, e: nat): (r: Option<(Option<VerseRaw>, nat)>)
    requires e <= |t|
    ensures r.Some? ==> e <= r.value.1 <= |t|
  {
    if e < |t| && t[e] == ':' then
      var s1 := SkipDigits(t, e + 1);
      if s1 == e + 1 then None
      else if s1 < |t| && t[s1] == '-' then
        var s2 := SkipDigits(t, s1 + 1);
        if s2 == s1 + 1 then None else Some((Some(VerseRaw(t[e + 1..s1], Some(t[s1 + 1..s2]))), s2))
      else Some((Some(VerseRaw(t[e + 1..s1], None)), s1))
    else Some((None, e))
  }

  /** Scans `t` for the reference shape. */
  function MatchReference(t: string): Option<RefMatch> {
    var p := if |t| > 0 && '1' <= t[0] <= '3' then 1 else 0;
    var k := SkipLettersOrSpaces(t, p);
    if k < p + 2 || k == |t| || !IsDigit(t[k]) || !IsSpace(t[k - 1]) then None
    else
      var e := SkipDigits(t, k);
      match MatchVerses(t, e)
      case None => None
      case Some((v, q)) =>
        match MatchVersion(t, q)
        case None => None
        case Some(ver) => Some(RefMatch(t[..k - 1], t[k - 1], t[k..e], v, ver))
  }

  /** Reading `t` through a known split at `e`. */
  lemma CharsAt(t: string, e: nat, u: string, rest: string)
    requires e <= |t| && t[e..] == u + rest
    ensures |t| == e + |u| + |rest|
    ensures forall i | e <= i < e + |u| :: t[i] == u[i - e]
    ensures t[e + |u|..] == rest
  {
    forall i | e <= i < e + |u| ensures t[i] == u[i - e] {
      assert t[i] == t[e..][i - e];
    }
    assert t[e + |u|..] == t[e..][|u|..];
  }

  lemma VersesSound(t: string, e: nat)
    requires e <= |t| && MatchVerses(t, e).Some?
    ensures var (v, q) := MatchVerses(t, e).value;
      && VersesText(v) == t[e..q]
      && (v.Some? ==> IsDigitRun(v.value.start) && (v.value.end.Some? ==> IsDigitRun(v.value.end.value)))
  {
    var (v, q) := MatchVerses(t, e).value;
    if v.Some? {
      var s1 := SkipDigits(t, e + 1);
      assert t[e..s1] == [t[e]] + t[e + 1..s1];
      if v.value.end.Some? {
        assert t[e..q] == t[e..s1] + [t[s1]] + t[s1 + 1..q];
      }
    }
  }

  lemma VersionSound(t: string, q: nat)
    requires q <= |t| && MatchVersion(t, q).Some?
    ensures var v := MatchVersion(t, q).value;
      && VersionText(v) == t[q..]
      && (v.Some? ==> |v.value.gap| > 0 && AllSpace(v.value.gap) && |v.value.code| > 0 && AllAlnum(v.value.code))
  {
    if q < |t| {
      var g := SkipSpaces(t, q);
      assert t[q..] == t[q..g] + t[g..];
    }
  }

  /** The captures of a scan, named by the positions where they end. */
  lemma MatchParts(t: string, m: RefMatch) returns (k: nat, e: nat, q: nat)
    requires MatchReference(t) == Some(m)
    ensures 2 <= k <= e <= q <= |t|
    ensures m.book == t[..k - 1] && m.sep == t[k - 1] && m.chapter == t[k..e]
    ensures IsSpace(m.sep) && IsDigitRun(m.chapter)
    ensures '1' <= t[0] <= '3' ==> 3 <= k && AllLetterOrSpace(t[1..k - 1])
    ensures !('1' <= t[0] <= '3') ==> AllLetterOrSpace(t[..k - 1])
    ensures MatchVerses(t, e) == Some((m.verses, q))
    ensures MatchVersion(t, q) == Some(m.version)
  {
    var p := if |t| > 0 && '1' <= t[0] <= '3' then 1 else 0;
    k := SkipLettersOrSpaces(t, p);
    e := SkipDigits(t, k);
    q := MatchVerses(t, e).value.1;
  }

  lemma AssembleSound(t: string, m: RefMatch, k: nat, e: nat, q: nat)
    requires 2 <= k <= e <= q <= |t|
    requires m.book == t[..k - 1] && m.sep == t[k - 1] && m.chapter == t[k..e]
    requires VersesText(m.verses) == t[e..q] && VersionText(m.version) == t[q..]
    ensures Render(m) == t
  {
    assert t[..k] == t[..k - 1] + [t[k - 1]];
    assert t[..e] == t[..k] + t[k..e];
    assert t[..q] == t[..e] + t[e..q];
    assert t == t[..q] + t[q..];
  }

  lemma MatchSound(t: string, m: RefMatch)
    requires MatchReference(t) == Some(m)
    ensures WellFormed(m) && Render(m) == t
  {
    var k, e, q := MatchParts(t, m);
    VersesSound(t, e);
    VersionSound(t, q);
    AssembleSound(t, m, k, e, q);
    if '1' <= t[0] <= '3' {
      assert m.book[1..] == t[1..k - 1];
    }
  }

  /** Scanning a run of digits `c` that `t` holds at `k`. */
  lemma DigitsScan(t: string, k: nat, c: string, rest: string) returns (e: nat)
    requires k <= |t| && t[k..] == c + rest
    requires AllDigits(c) && (rest == [] || !IsDigit(rest[0]))
    ensures e == k + |c| <= |t|
    ensures SkipDigits(t, k) == e && t[k..e] == c && t[e..] == rest
  {
    CharsAt(t, k, c, rest);
    e := k + |c|;
    if rest != [] {
      assert t[e] == rest[0];
    }
    SkipDigitsAt(t, k, e);
  }

  /** Scanning the book token and the separator at the start of `t`. */
  lemma BookScan(t: string, book: string, sep: char, rest: string) returns (k: nat)
    requires IsBookToken(book) && IsSpace(sep) && |rest| > 0 && IsDigit(rest[0])
    requires t == book + [sep] + rest
    ensures k == |book| + 1 && 0 < k < |t|
    ensures SkipLettersOrSpaces(t, if '1' <= t[0] <= '3' then 1 else 0) == k
    ensures k >= (if '1' <= t[0] <= '3' then 3 else 2)
    ensures IsDigit(t[k]) && IsSpace(t[k - 1])
    ensures t[..k - 1] == book && t[k - 1] == sep && t[k..] == rest
  {
    var b := |book|;
    k := b + 1;
    CharsAt(t, 0, book + [sep], rest);
    var p := if '1' <= t[0] <= '3' then 1 else 0;
    assert t[0] == book[0];
    forall i | p <= i < k ensures IsLetterOrSpace(t[i]) {
      if i < b {
        assert t[i] == book[i];
        if p == 1 { assert book[i] == book[1..][i - 1]; }
      }
    }
    assert t[k] == rest[0];
    SkipLettersOrSpacesAt(t, p, k);
    assert t[..k] == book + [sep];
  }

  /** The scan succeeds once each of its stages is known to. */
  lemma MatchOfParts(t: string, k: nat, e: nat, q: nat, m: RefMatch)
    requires 0 < k < |t|
    requires SkipLettersOrSpaces(t, if '1' <= t[0] <= '3' then 1 else 0) == k
    requires k >= (if '1' <= t[0] <= '3' then 3 else 2)
    requires IsDigit(t[k]) && IsSpace(t[k - 1])
    requires t[..k - 1] == m.book && t[k - 1] == m.sep
    requires k <= e <= |t| && SkipDigits(t, k) == e && t[k..e] == m.chapter
    requires q <= |t| && MatchVerses(t, e) == Some((m.verses, q))
    requires MatchVersion(t, q) == Some(m.version)
    ensures MatchReference(t) == Some(m)
  {
  }

  lemma MatchComplete(t: string, m: RefMatch)
    requires WellFormed(m) && Render(m) == t
    ensures MatchReference(t) == Some(m)
  {
    var vs, vt := VersesText(m.verses), VersionText(m.version);
    VersionTextStart(m.version);
    assert vs + vt == [] || !IsDigit((vs + vt)[0]);
    assert t == m.book + [m.sep] + (m.chapter + (vs + vt));
    var k := BookScan(t, m.book, m.sep, m.chapter + (vs + vt));
    var e := DigitsScan(t, k, m.chapter, vs + vt);
    var q := TailMatch(t, e, m);
    MatchOfParts(t, k, e, q, m);
  }

  /** Scanning what follows the chapter. */
  lemma TailMatch(t: string, e: nat, m: RefMatch) returns (q: nat)
    requires WellFormed(m)
    requires e <= |t| && t[e..] == VersesText(m.verses) + VersionText(m.version)
    ensures q <= |t|
    ensures MatchVerses(t, e) == Some((m.verses, q))
    ensures MatchVersion(t, q) == Some(m.version)
  {
    q := VersesMatch(t, e, m);
    VersionMatch(t, q, m.version);
  }

  /** The version part, when present, starts with whitespace. */
  lemma VersionTextStart(v: Option<VersionRaw>)
    requires v.Some? ==> |v.value.gap| > 0 && AllSpace(v.value.gap)
    ensures VersionText(v) == [] || IsSpace(VersionText(v)[0])
  {
    if v.Some? { assert VersionText(v)[0] == v.value.gap[0]; }
  }

  lemma VersesMatch(t: string, e: nat, m: RefMatch) returns (q: nat)
    requires WellFormed(m)
    requires e <= |t| && t[e..] == VersesText(m.verses) + VersionText(m.version)
    ensures q <= |t| && MatchVerses(t, e) == Some((m.verses, q))
    ensures t[q..] == VersionText(m.version)
  {
    var vt := VersionText(m.version);
    VersionTextStart(m.version);
    match m.verses
    case None =>
      q := e;
      assert e < |t| ==> t[e] == vt[0];
    case Some(VerseRaw(start, None)) =>
      assert VersesText(m.verses) == ":" + start;
      q := VerseStartMatch(t, e, start, vt);
    case Some(VerseRaw(start, Some(end))) =>
      assert VersesText(m.verses) == ":" + start + ("-" + end);
      q := VerseRangeMatch(t, e, start, end, vt);
  }

  lemma VerseStartMatch(t: string, e: nat, start: string, vt: string) returns (q: nat)
    requires IsDigitRun(start) && (vt == [] || IsSpace(vt[0]))
    requires e <= |t| && t[e..] == ":" + start + vt
    ensures q <= |t| && MatchVerses(t, e) == Some((Some(VerseRaw(start, None)), q))
    ensures t[q..] == vt
  {
    assert t[e..] == [':'] + (start + vt);
    CharsAt(t, e, [':'], start + vt);
    q := DigitsScan(t, e + 1, start, vt);
    assert q < |t| ==> t[q] == vt[0];
  }

  lemma VerseRangeMatch(t: string, e: nat, start: string, end: string, vt: string) returns (q: nat)
    requires IsDigitRun(start) && IsDigitRun(end) && (vt == [] || IsSpace(vt[0]))
    requires e <= |t| && t[e..] == ":" + start + ("-" + end) + vt
    ensures q <= |t| && MatchVerses(t, e) == Some((Some(VerseRaw(start, Some(end))), q))
    ensures t[q..] == vt
  {
    assert t[e..] == [':'] + (start + (['-'] + (end + vt)));
    CharsAt(t, e, [':'], start + (['-'] + (end + vt)));
    var s1 := DigitsScan(t, e + 1, start, ['-'] + (end + vt));
    q := VerseEndMatch(t, s1, end, vt);
  }

  lemma VerseEndMatch(t: string, s1: nat, end: string, vt: string) returns (q: nat)
    requires IsDigitRun(end) && (vt == [] || IsSpace(vt[0]))
    requires s1 <= |t| && t[s1..] == ['-'] + (end + vt)
    ensures s1 < q <= |t| && t[s1] == '-' && SkipDigits(t, s1 + 1) == q && q != s1 + 1
    ensures t[s1 + 1..q] == end && t[q..] == vt
  {
    CharsAt(t, s1, ['-'], end + vt);
    q := DigitsScan(t, s1 + 1, end, vt);
  }

  lemma VersionMatch(t: string, q: nat, v: Option<VersionRaw>)
    requires q <= |t| && t[q..] == VersionText(v)
    requires v.Some? ==> |v.value.gap| > 0 && AllSpace(v.value.gap) && |v.value.code| > 0 && AllAlnum(v.value.code)
    ensures MatchVersion(t, q) == Some(v)
  {
    if v.Some? {
      var gap, code := v.value.gap, v.value.code;
      CharsAt(t, q, gap, code);
      SkipSpacesAt(t, q, q + |gap|);
      SkipAlnumAt(t, q + |gap|, |t|);
      assert t[q..q + |gap|] == gap;
    }
  }

  /** The grammar and the scanner agree: a text has at most one reading. */
  lemma MatchUnique(t: string, m: RefMatch)
    ensures MatchReference(t) == Some(m) <==> WellFormed(m) && Render(m) == t
  {
    if MatchReference(t) == Some(m) { MatchSound(t, m); }
    if WellFormed(m) && Render(m) == t { MatchComplete(t, m); }
  }

  // ---------------------------------------------------------------- resolution

  /** The problems the parser reports, in the order it checks for them. */
  datatype ParseError =
    | InvalidFormat
    | UnknownBook(raw: string)
    | InvalidChapter(chapter: int, bookName: string, chapters: int)
    | EndNotAfterStart

  /** The text shown for each problem. */
  function ErrorMessage(e: ParseError): string {
    match e
    case InvalidFormat => "Invalid format. Expected: Book Chapter:Verse"
    case UnknownBook(raw) => "Unknown book: \"" + raw + "\""
    case InvalidChapter(c, name, n) =>
      "Invalid chapter: " + IntToString(c) + ". " + name + " has " + IntToString(n) + " chapters."
    case EndNotAfterStart => "End verse must be greater than start verse."
  }

  /** `null` fields are `None`. */
  datatype ParsedReference = ParsedReference(book: Option<Book>, chapter: Option<int>, verseStart: Option<int>,
                                             verseEnd: Option<int>, versionCode: Option<string>,
                                             errors: seq<ParseError>)

  const NoReference := ParsedReference(None, None, None, None, None, [])

  predicate HasUnknownBook(r: ParsedReference) { exists e | e in r.errors :: e.UnknownBook? }
  predicate HasChapterError(r: ParsedReference) { exists e | e in r.errors :: e.InvalidChapter? }

  /** A book answers to its name, its id or its abbreviation, compared in lower case. */
  predicate BookMatches(b: Book, search: string) {
    || Lower(b.name) == search
    || Lower(b.id) == search
    || (b.abbreviation.Some? && Lower(b.abbreviation.value) == search)
  }

  /** The position of the first book that answers to `search`, or `|books|`. */
  function FindBookIndex(books: seq<Book>, search: string): (i: nat)
    ensures i <= |books|
    ensures forall j | 0 <= j < i :: !BookMatches(books[j], search)
    ensures i < |books| ==> BookMatches(books[i], search)
  {
    if books == [] then 0
    else if BookMatches(books[0], search) then 0
    else 1 + FindBookIndex(books[1..], search)
  }

  /** `Array.prototype.find` over the available books. */
  function FindBook(books: seq<Book>, search: string): (r: Option<Book>)
    ensures r.None? <==> forall j | 0 <= j < |books| :: !BookMatches(books[j], search)
    ensures r.Some? ==> exists i | 0 <= i < |books| :: books[i] == r.value && BookMatches(r.value, search)
                                                      && forall j | 0 <= j < i :: !BookMatches(books[j], search)
  {
    var i := FindBookIndex(books, search);
    if i < |books| then Some(books[i]) else None
  }

  predicate IsUpperAlnum(s: string) {
    forall i | 0 <= i < |s| :: 'A' <= s[i] <= 'Z' || IsDigit(s[i])
  }

  lemma UpperOfAlnum(s: string)
    requires AllAlnum(s)
    ensures IsUpperAlnum(Upper(s)) && Lower(Upper(s)) == Lower(s)
  {
  }

  lemma VersionCodeCase(v: Option<VersionRaw>)
    requires v.Some? ==> AllAlnum(v.value.code)
    ensures v.Some? ==> IsUpperAlnum(Upper(v.value.code)) && Lower(Upper(v.value.code)) == Lower(v.value.code)
  {
    if v.Some? { UpperOfAlnum(v.value.code); }
  }

  /** Steps 1 and 2: an unknown book, or a chapter outside the book's range. */
  function BookErrors(book: Option<Book>, raw: string, chapter: int): (es: seq<ParseError>)
    ensures |es| <= 1
  {
    if book.None? then [UnknownBook(raw)]
    else if chapter < 1 || chapter > book.value.chapters then [InvalidChapter(chapter, book.value.name, book.value.chapters)]
    else []
  }

  /** Step 4: the end verse must follow a start verse that is set and not zero. */
  function RangeErrors(start: Option<int>, end: Option<int>): (es: seq<ParseError>)
    ensures es == [EndNotAfterStart] <==> start.Some? && start.value != 0 && end.Some? && end.value <= start.value
    ensures es != [EndNotAfterStart] ==> es == []
  {
    if start.Some? && start.value != 0 && end.Some? && end.value <= start.value then [EndNotAfterStart] else []
  }

  /** Steps 1 to 5 of the parser, on the captures of a reading. */
  function Resolve(m: RefMatch, books: seq<Book>): (r: ParsedReference)
    requires WellFormed(m)
    ensures r.book == FindBook(books, Lower(Trim(m.book)))
    ensures r.chapter == Some(DigitsValue(m.chapter))
    ensures r.verseStart.Some? <==> m.verses.Some?
    ensures r.verseEnd.Some? ==> r.verseStart.Some?
    ensures r.versionCode.Some? <==> m.version.Some?
    ensures r.errors == BookErrors(r.book, Trim(m.book), r.chapter.value) + RangeErrors(r.verseStart, r.verseEnd)
  {
    var raw := Trim(m.book);
    var book := FindBook(books, Lower(raw));
    var chapter := DigitsValue(m.chapter);
    var start := if m.verses.Some? then Some(DigitsValue(m.verses.value.start) as int) else None;
    var end := if m.verses.Some? && m.verses.value.end.Some? then Some(DigitsValue(m.verses.value.end.value) as int) else None;
    var code := if m.version.Some? then Some(Upper(m.version.value.code)) else None;
    ParsedReference(book, Some(chapter), start, end, code, BookErrors(book, raw, chapter) + RangeErrors(start, end))
  }

  /** The problems of steps 1, 2 and 4 together. */
  lemma ErrorsIff(book: Option<Book>, raw: string, chapter: int, start: Option<int>, end: Option<int>)
    ensures var es := BookErrors(book, raw, chapter) + RangeErrors(start, end);
      && (book.None? <==> UnknownBook(raw) in es)
      && ((exists e | e in es :: e.InvalidChapter?) <==> book.Some? && (chapter < 1 || chapter > book.value.chapters))
      && (EndNotAfterStart in es <==> start.Some? && start.value != 0 && end.Some? && end.value <= start.value)
      && |es| <= 2
      && !((exists e | e in es :: e.UnknownBook?) && (exists e | e in es :: e.InvalidChapter?))
      && InvalidFormat !in es
  {
    var be, re := BookErrors(book, raw, chapter), RangeErrors(start, end);
    var es := be + re;
    assert forall e :: e in es <==> e in be || e in re;
    if be != [] { assert be[0] in es; }
  }

  /**
   * What a resolved reference reports: an unknown book, or a chapter outside
   * the book's range, or neither; then an end verse not after a non-zero start
   * verse.
   */
  lemma ResolveErrors(m: RefMatch, books: seq<Book>)
    requires WellFormed(m)
    ensures var r := Resolve(m, books);
      && (r.book.None? <==> UnknownBook(Trim(m.book)) in r.errors)
      && (HasChapterError(r) <==> r.book.Some? && (r.chapter.value < 1 || r.chapter.value > r.book.value.chapters))
      && (EndNotAfterStart in r.errors <==>
            r.verseStart.Some? && r.verseStart.value != 0 && r.verseEnd.Some? && r.verseEnd.value <= r.verseStart.value)
      && |r.errors| <= 2 && !(HasUnknownBook(r) && HasChapterError(r))
      && InvalidFormat !in r.errors
  {
    var r := Resolve(m, books);
    ErrorsIff(r.book, Trim(m.book), r.chapter.value, r.verseStart, r.verseEnd);
  }

  lemma ResolveVersion(m: RefMatch, books: seq<Book>)
    requires WellFormed(m) && m.version.Some?
    ensures var code := Resolve(m, books).versionCode.value;
      IsUpperAlnum(code) && |code| == |m.version.value.code| && Lower(code) == Lower(m.version.value.code)
  {
    UpperOfAlnum(m.version.value.code);
  }

  /** Whether `t` has a reading, and that it has at most one. */
  lemma Readings(t: string)
    ensures MatchReference(t).None? ==> forall m :: !(WellFormed(m) && Render(m) == t)
    ensures MatchReference(t).Some? ==> WellFormed(MatchReference(t).value) && Render(MatchReference(t).value) == t
    ensures forall m | WellFormed(m) && Render(m) == t :: MatchReference(t) == Some(m)
  {
    forall m | WellFormed(m) && Render(m) == t ensures MatchReference(t) == Some(m) {
      MatchComplete(t, m);
    }
    if MatchReference(t).Some? {
      MatchSound(t, MatchReference(t).value);
    }
  }

  /**
   * `parseReference`: blank input gives the empty result, text without a
   * reading gives the format error alone, and otherwise the result is that
   * of the one reading the grammar admits.
   */
  function ParseReference(input: string, books: seq<Book>): (r: ParsedReference)
    ensures !HasNonSpace(input) ==> r == NoReference
    ensures HasNonSpace(input) && (forall m :: !(WellFormed(m) && Render(m) == Trim(input))) ==>
              r == NoReference.(errors := [InvalidFormat])
    ensures forall m | WellFormed(m) && Render(m) == Trim(input) :: r == Resolve(m, books)
  {
    var t := Trim(input);
    Readings(t);
    if t == [] then NoReference
    else match MatchReference(t)
      case None => NoReference.(errors := [InvalidFormat])
      case Some(m) => Resolve(m, books)
  }

  /** The format error is reported exactly when the trimmed input has no reading. */
  lemma InvalidFormatIff(input: string, books: seq<Book>)
    requires HasNonSpace(input)
    ensures ParseReference(input, books).errors == [InvalidFormat] <==>
              forall m :: !(WellFormed(m) && Render(m) == Trim(input))
  {
    var t := Trim(input);
    Readings(t);
    if MatchReference(t).Some? {
      ResolveErrors(MatchReference(t).value, books);
    }
  }

  /** At most two problems are reported, and never both book problems. */
  lemma ParseErrors(input: string, books: seq<Book>)
    ensures var r := ParseReference(input, books);
      |r.errors| <= 2 && !(HasUnknownBook(r) && HasChapterError(r))
  {
    var t := Trim(input);
    Readings(t);
    if t != [] && MatchReference(t).Some? {
      ResolveErrors(MatchReference(t).value, books);
    }
  }

  /** A reading that does not start with whitespace is its own trimmed text. */
  lemma RenderTrimmed(m: RefMatch)
    requires WellFormed(m) && !IsSpace(m.book[0])
    ensures IsTrimmed(Render(m))
  {
    var t := Render(m);
    var vs, vt := VersesText(m.verses), VersionText(m.version);
    assert t == m.book + ([m.sep] + m.chapter + vs + vt);
    assert t[0] == m.book[0];
    var last := t[|t| - 1];
    if m.version.Some? {
      assert last == m.version.value.code[|m.version.value.code| - 1];
    } else if m.verses.Some? && m.verses.value.end.Some? {
      assert vs == ":" + m.verses.value.start + ("-" + m.verses.value.end.value);
      assert last == m.verses.value.end.value[|m.verses.value.end.value| - 1];
    } else if m.verses.Some? {
      assert vs == ":" + m.verses.value.start;
      assert last == m.verses.value.start[|m.verses.value.start| - 1];
    } else {
      assert last == m.chapter[|m.chapter| - 1];
    }
  }

  /** A well-formed reading, typed without leading whitespace, parses to its resolution. */
  lemma ParseOfReading(m: RefMatch, books: seq<Book>)
    requires WellFormed(m) && !IsSpace(m.book[0])
    ensures ParseReference(Render(m), books) == Resolve(m, books)
  {
    RenderTrimmed(m);
    TrimOfTrimmed(Render(m));
  }

  /** `1 John 2:5-3` reports an end verse that is not after the start verse. */
  lemma ExampleEndBeforeStart(first: Book)
    requires first.name == "1 John"
    ensures EndNotAfterStart in ParseReference("1 John 2:5-3", [first]).errors
  {
    var m := RefMatch("1 John", ' ', "2", Some(VerseRaw("5", Some("3"))), None);
    assert IsBookToken("1 John") by { assert "1 John"[1..] == " John"; }
    assert Render(m) == "1 John 2:5-3";
    ParseOfReading(m, [first]);
    ResolveErrors(m, [first]);
  }

  /** `isValidCharacter`: a single letter, digit, whitespace, `:`, `.` or `-`. */
  predicate IsValidCharacter(c: string) {
    |c| == 1 && (IsAlnum(c[0]) || IsSpace(c[0]) || c[0] == ':' || c[0] == '.' || c[0] == '-')
  }
}
