/**
 * Suggestions for the scripture input box (`getSuggestions`) and the
 * `Book N ` to `Book N:` rewrite (`getSmartTransform`).
 *
 * The input is read as a book token followed by further words. While the
 * book is being typed the suggestions are the best five distinct book names;
 * past the book they are chapter, verse or version placeholders for the first
 * book that matches.
 */
module Autocomplete {
  import opened Wrappers
  import opened Text
  import opened ScriptureDb
  import opened ReferenceParser

  datatype SuggestionType = BookSuggestion | ChapterSuggestion | VerseSuggestion | VersionSuggestion

  /**
   * A suggestion. `text` is `None` only for a version that has no code, whose
   * suggestion text is then `undefined`.
   */
  datatype Suggestion = Suggestion(text: Option<string>, kind: SuggestionType, description: Option<string>)

  // ---------------------------------------------------------------- tokens

  /** The book token and the words after it. */
  datatype Tokens = Tokens(book: string, remaining: seq<string>)

  predicate IsBookNumber(w: string) { |w| == 1 && '1' <= w[0] <= '3' }

  /**
   * The words of `t` (already without leading whitespace), the first two of
   * them making the book token when the first is `1`, `2` or `3` and a second
   * word follows.
   */
  function Tokenize(t: string): (k: Tokens)
    ensures |k.remaining| < |SplitSpaces(t)|
  {
    var parts := SplitSpaces(t);
    if IsBookNumber(parts[0]) && |parts| > 1 && parts[1] != "" then Tokens(parts[0] + " " + parts[1], parts[2..])
    else Tokens(parts[0], parts[1..])
  }

  /** On words separated by single spaces, the book token is one word, or two after a book number. */
  lemma TokenizeWords(ws: seq<string>)
    requires |ws| >= 1
    requires forall k | 0 <= k < |ws| :: |ws[k]| > 0 && NoSpace(ws[k])
    ensures var k := Tokenize(Join(ws, " "));
      if IsBookNumber(ws[0]) && |ws| > 1 then k == Tokens(ws[0] + " " + ws[1], ws[2..])
      else k == Tokens(ws[0], ws[1..])
  {
    SplitJoin(ws);
  }

  // ---------------------------------------------------------------- matching books

  /** The filter: the typed (lower-cased) token is a prefix of the name, the id or the abbreviation. */
  predicate PrefixMatch(b: Book, q: string) {
    || StartsWith(Lower(b.name), q)
    || StartsWith(Lower(b.id), q)
    || (b.abbreviation.Some? && StartsWith(Lower(b.abbreviation.value), q))
  }

  /** `availableBooks.filter(...)`, which keeps the order of `books`. */
  function MatchBooks(books: seq<Book>, q: string): (r: seq<Book>)
    ensures forall b :: b in r <==> b in books && PrefixMatch(b, q)
    ensures r != [] ==> exists i | 0 <= i < |books| ::
              books[i] == r[0] && PrefixMatch(books[i], q) && forall j | 0 <= j < i :: !PrefixMatch(books[j], q)
    decreases |books|
  {
    if books == [] then []
    else
      var rest := MatchBooks(books[1..], q);
      assert forall b :: b in books <==> b == books[0] || b in books[1..];
      if PrefixMatch(books[0], q) then [books[0]] + rest
      else
        assert rest != [] ==> exists i | 0 <= i < |books| ::
          books[i] == rest[0] && PrefixMatch(books[i], q) && forall j | 0 <= j < i :: !PrefixMatch(books[j], q) by {
          if rest != [] {
            var i :| 0 <= i < |books[1..]| && books[1..][i] == rest[0] && PrefixMatch(books[1..][i], q)
                     && forall j | 0 <= j < i :: !PrefixMatch(books[1..][j], q);
            assert forall j | 0 <= j < i + 1 :: !PrefixMatch(books[j], q) by {
              forall j | 0 <= j < i + 1 ensures !PrefixMatch(books[j], q) {
                if j > 0 { assert books[j] == books[1..][j - 1]; }
              }
            }
            assert books[i + 1] == rest[0];
          }
        }
        rest
  }

  // ---------------------------------------------------------------- ranking

  /** `localeCompare`, taken as the order of UTF-16 code units. */
  predicate LexLess(a: string, b: string)
    decreases |a|
  {
    |b| > 0 && (|a| == 0 || a[0] < b[0] || (a[0] == b[0] && LexLess(a[1..], b[1..])))
  }

  lemma {:induction false} LexAsymmetric(a: string, b: string)
    requires LexLess(a, b)
    ensures !LexLess(b, a)
    decreases |a|
  {
    if |a| > 0 && a[0] == b[0] {
      LexAsymmetric(a[1..], b[1..]);
    }
  }

  /** Not being after is transitive. */
  lemma {:induction false} LexNotAfterTransitive(a: string, b: string, c: string)
    requires !LexLess(b, a) && !LexLess(c, b)
    ensures !LexLess(c, a)
    decreases |a|
  {
    if |a| > 0 && |b| > 0 && |c| > 0 && a[0] == b[0] && b[0] == c[0] {
      LexNotAfterTransitive(a[1..], b[1..], c[1..]);
    }
  }

  lemma {:induction false} LexTotal(a: string, b: string)
    requires a != b
    ensures LexLess(a, b) || LexLess(b, a)
    decreases |a|
  {
    if |a| > 0 && |b| > 0 && a[0] == b[0] {
      assert a == [a[0]] + a[1..] && b == [b[0]] + b[1..];
      LexTotal(a[1..], b[1..]);
    }
  }

  predicate NameStarts(name: string, q: string) { StartsWith(Lower(name), q) }

  /** The sort comparator is negative: names with the typed prefix first, then by name. */
  predicate RanksBefore(x: string, y: string, q: string) {
    || (NameStarts(x, q) && !NameStarts(y, q))
    || (NameStarts(x, q) == NameStarts(y, q) && LexLess(x, y))
  }

  lemma RankAsymmetric(x: string, y: string, q: string)
    requires RanksBefore(x, y, q)
    ensures !RanksBefore(y, x, q)
  {
    if NameStarts(x, q) == NameStarts(y, q) {
      LexAsymmetric(x, y);
    }
  }

  lemma RankNotAfterTransitive(x: string, y: string, z: string, q: string)
    requires !RanksBefore(y, x, q) && !RanksBefore(z, y, q)
    ensures !RanksBefore(z, x, q)
  {
    if NameStarts(x, q) == NameStarts(y, q) && NameStarts(y, q) == NameStarts(z, q) {
      LexNotAfterTransitive(x, y, z);
    }
  }

  lemma RankTotal(x: string, y: string, q: string)
    requires x != y
    ensures RanksBefore(x, y, q) || RanksBefore(y, x, q)
  {
    LexTotal(x, y);
  }

  predicate SortedByRank(s: seq<Book>, q: string) {
    forall i, j | 0 <= i < j < |s| :: !RanksBefore(s[j].name, s[i].name, q)
  }

  /** Insert `b` before the first book that does not rank before it. */
  function InsertByRank(b: Book, s: seq<Book>, q: string): seq<Book>
    decreases |s|
  {
    if s == [] then [b]
    else if RanksBefore(s[0].name, b.name, q) then [s[0]] + InsertByRank(b, s[1..], q)
    else [b] + s
  }

  /** `matchedBooks.sort(comparator)`, a stable sort. */
  function SortByRank(s: seq<Book>, q: string): seq<Book>
    decreases |s|
  {
    if s == [] then [] else InsertByRank(s[0], SortByRank(s[1..], q), q)
  }

  lemma {:induction false} InsertSorted(b: Book, s: seq<Book>, q: string)
    requires SortedByRank(s, q)
    ensures SortedByRank(InsertByRank(b, s, q), q)
    ensures multiset(InsertByRank(b, s, q)) == multiset(s) + multiset{b}
    decreases |s|
  {
    if s != [] {
      assert s == [s[0]] + s[1..];
      if RanksBefore(s[0].name, b.name, q) {
        var t := InsertByRank(b, s[1..], q);
        InsertSorted(b, s[1..], q);
        RankAsymmetric(s[0].name, b.name, q);
        NoneBeforeHead(b, s, t, q);
        PrependSorted(s[0], t, q);
      } else {
        forall j | 1 <= j < |s| ensures !RanksBefore(s[j].name, b.name, q) {
          RankNotAfterTransitive(b.name, s[0].name, s[j].name, q);
        }
        PrependSorted(b, s, q);
      }
    }
  }

  /** Nothing in `s[1..]` with `b` added ranks before the head of a sorted `s`. */
  lemma NoneBeforeHead(b: Book, s: seq<Book>, t: seq<Book>, q: string)
    requires s != [] && SortedByRank(s, q) && !RanksBefore(b.name, s[0].name, q)
    requires multiset(t) == multiset(s[1..]) + multiset{b}
    ensures forall j | 0 <= j < |t| :: !RanksBefore(t[j].name, s[0].name, q)
  {
    forall j | 0 <= j < |t| ensures !RanksBefore(t[j].name, s[0].name, q) {
      assert t[j] in multiset(t);
      if t[j] != b {
        assert t[j] in multiset(s[1..]);
        var k :| 0 <= k < |s[1..]| && s[1..][k] == t[j];
        assert s[k + 1] == t[j];
      }
    }
  }

  lemma PrependSorted(b: Book, s: seq<Book>, q: string)
    requires SortedByRank(s, q)
    requires forall j | 0 <= j < |s| :: !RanksBefore(s[j].name, b.name, q)
    ensures SortedByRank([b] + s, q)
  {
    var r := [b] + s;
    forall i, j | 0 <= i < j < |r| ensures !RanksBefore(r[j].name, r[i].name, q) {
      assert r[j] == s[j - 1];
      if i > 0 { assert r[i] == s[i - 1]; }
    }
  }

  /** The sort orders the matches by rank and keeps every one of them. */
  lemma {:induction false} SortFacts(s: seq<Book>, q: string)
    ensures SortedByRank(SortByRank(s, q), q)
    ensures multiset(SortByRank(s, q)) == multiset(s)
    decreases |s|
  {
    if s != [] {
      SortFacts(s[1..], q);
      InsertSorted(s[0], SortByRank(s[1..], q), q);
      assert s == [s[0]] + s[1..];
    }
  }

  // ---------------------------------------------------------------- one book per name

  function NameSet(s: seq<Book>): set<string> {
    set i | 0 <= i < |s| :: s[i].name
  }

  lemma NameSetAppend(s: seq<Book>, b: Book)
    ensures NameSet(s + [b]) == NameSet(s) + {b.name}
  {
    var t := s + [b];
    forall n | n in NameSet(t) ensures n in NameSet(s) + {b.name} {
      var i :| 0 <= i < |t| && t[i].name == n;
      if i < |s| { assert t[i] == s[i]; }
    }
    forall n | n in NameSet(s) ensures n in NameSet(t) {
      var i :| 0 <= i < |s| && s[i].name == n;
      assert t[i] == s[i];
    }
    assert t[|s|] == b;
  }

  /** The first book of each name, in order: what the dedup loop keeps. */
  function UniqueByName(s: seq<Book>): seq<Book>
    decreases |s|
  {
    if s == [] then []
    else
      var u := UniqueByName(s[..|s| - 1]);
      if s[|s| - 1].name in NameSet(u) then u else u + [s[|s| - 1]]
  }

  /** The dedup keeps every name once, and only books of `s`. */
  lemma {:induction false} UniqueFacts(s: seq<Book>)
    ensures var u := UniqueByName(s);
      && NameSet(u) == NameSet(s)
      && (forall i, j | 0 <= i < j < |u| :: u[i].name != u[j].name)
      && (forall i | 0 <= i < |u| :: u[i] in s)
    decreases |s|
  {
    if s != [] {
      var init, last := s[..|s| - 1], s[|s| - 1];
      var u := UniqueByName(init);
      UniqueFacts(init);
      assert s == init + [last];
      NameSetAppend(init, last);
      if last.name !in NameSet(u) {
        NameSetAppend(u, last);
        var v := u + [last];
        forall i, j | 0 <= i < j < |v| ensures v[i].name != v[j].name {
          if j == |u| { assert v[i] == u[i]; assert v[i].name in NameSet(u); }
          else { assert v[i] == u[i] && v[j] == u[j]; }
        }
        forall i | 0 <= i < |v| ensures v[i] in s {
          if i < |u| { assert v[i] == u[i]; }
        }
      } else {
        forall i | 0 <= i < |u| ensures u[i] in s {
          assert u[i] in init;
        }
      }
    }
  }

  /** The dedup of a sorted sequence is sorted. */
  lemma {:induction false} UniqueSorted(s: seq<Book>, q: string)
    requires SortedByRank(s, q)
    ensures SortedByRank(UniqueByName(s), q)
    decreases |s|
  {
    if s != [] {
      var init, last := s[..|s| - 1], s[|s| - 1];
      var u := UniqueByName(init);
      assert SortedByRank(init, q);
      UniqueSorted(init, q);
      UniqueFacts(init);
      if last.name !in NameSet(u) {
        var v := u + [last];
        forall i, j | 0 <= i < j < |v| ensures !RanksBefore(v[j].name, v[i].name, q) {
          assert v[i] == u[i];
          if j == |u| {
            var k :| 0 <= k < |init| && init[k] == u[i];
            assert s[k] == u[i];
          } else {
            assert v[j] == u[j];
          }
        }
      }
    }
  }

  /** The dedup loop: a `seen` set of names and the books pushed so far. */
  method DedupByName(s: seq<Book>) returns (unique: seq<Book>)
    ensures unique == UniqueByName(s)
  {
    var seen: set<string> := {};
    unique := [];
    for i := 0 to |s|
      invariant unique == UniqueByName(s[..i])
      invariant seen == NameSet(unique)
    {
      assert s[..i + 1][..i] == s[..i];
      if s[i].name !in seen {
        NameSetAppend(unique, s[i]);
        seen := seen + {s[i].name};
        unique := unique + [s[i]];
      }
    }
    assert s[..|s|] == s;
  }

  // ---------------------------------------------------------------- suggestion lists

  function Top5(s: seq<Book>): (r: seq<Book>)
    ensures |r| <= 5 && |r| <= |s| && r == s[..|r|]
    ensures |r| < 5 ==> r == s
  {
    if |s| > 5 then s[..5] else s
  }

  function AsBookSuggestions(s: seq<Book>): (r: seq<Suggestion>)
    ensures |r| == |s|
    ensures forall i | 0 <= i < |s| :: r[i] == Suggestion(Some(s[i].name), BookSuggestion, None)
  {
    seq(|s|, i requires 0 <= i < |s| => Suggestion(Some(s[i].name), BookSuggestion, None))
  }

  /** Lines 45 to 65: sort, one book per name, the first five, as book suggestions. */
  function BookSuggestions(matched: seq<Book>, q: string): seq<Suggestion> {
    AsBookSuggestions(Top5(UniqueByName(SortByRank(matched, q))))
  }

  /**
   * The book suggestions are at most five distinct matched names, ranked
   * strictly (typed-prefix names first, ties by name), and they are the
   * best-ranked ones: every matched name is offered or ranks after all that
   * are, and fewer than five are offered only when there are no more names.
   */
  lemma BookSuggestionsBest(matched: seq<Book>, q: string)
    ensures var r := BookSuggestions(matched, q);
      && |r| <= 5
      && (forall i | 0 <= i < |r| :: r[i].kind == BookSuggestion && r[i].text.Some? && r[i].text.value in NameSet(matched))
      && (forall i, j | 0 <= i < j < |r| :: RanksBefore(r[i].text.value, r[j].text.value, q))
      && (forall i, j | 0 <= i < j < |r| :: NameStarts(r[j].text.value, q) ==> NameStarts(r[i].text.value, q))
      && (forall i, j | 0 <= i < j < |r| :: r[i].text.value != r[j].text.value)
      && (forall b | b in matched ::
            || (exists j | 0 <= j < |r| :: r[j].text.value == b.name)
            || (forall i | 0 <= i < |r| :: RanksBefore(r[i].text.value, b.name, q)))
      && (|r| < 5 ==> forall b | b in matched :: exists i | 0 <= i < |r| :: r[i].text.value == b.name)
  {
    var u := RankedNames(matched, q);
    var r := BookSuggestions(matched, q);
    assert forall i | 0 <= i < |r| :: r[i].text.value == u[i].name;
    forall b | b in matched
      ensures || (exists j | 0 <= j < |r| :: r[j].text.value == b.name)
              || (forall i | 0 <= i < |r| :: RanksBefore(r[i].text.value, b.name, q))
    {
      var k := NameIndex(matched, u, b);
      if k < |r| { assert r[k].text.value == b.name; }
    }
    if |r| < 5 {
      forall b | b in matched ensures exists i | 0 <= i < |r| :: r[i].text.value == b.name {
        var k := NameIndex(matched, u, b);
        assert r[k].text.value == b.name;
      }
    }
  }

  lemma NameIndex(matched: seq<Book>, u: seq<Book>, b: Book) returns (k: nat)
    requires NameSet(u) == NameSet(matched) && b in matched
    ensures k < |u| && u[k].name == b.name
  {
    var m :| 0 <= m < |matched| && matched[m] == b;
    assert b.name in NameSet(u);
    k :| 0 <= k < |u| && u[k].name == b.name;
  }

  /** The sorted, deduplicated matches: every matched name once, strictly ranked. */
  lemma RankedNames(matched: seq<Book>, q: string) returns (u: seq<Book>)
    ensures u == UniqueByName(SortByRank(matched, q))
    ensures NameSet(u) == NameSet(matched)
    ensures forall i, j | 0 <= i < j < |u| :: RanksBefore(u[i].name, u[j].name, q)
    ensures forall i, j | 0 <= i < j < |u| :: u[i].name != u[j].name
  {
    var sorted := SortByRank(matched, q);
    u := UniqueByName(sorted);
    SortFacts(matched, q);
    UniqueFacts(sorted);
    UniqueSorted(sorted, q);
    SameNames(matched, sorted);
    StrictlyRanked(u, q);
  }

  lemma SameNames(s: seq<Book>, t: seq<Book>)
    requires multiset(s) == multiset(t)
    ensures NameSet(s) == NameSet(t)
  {
    forall n ensures n in NameSet(s) <==> n in NameSet(t) {
      if n in NameSet(s) {
        var i :| 0 <= i < |s| && s[i].name == n;
        assert s[i] in multiset(t);
      }
      if n in NameSet(t) {
        var i :| 0 <= i < |t| && t[i].name == n;
        assert t[i] in multiset(s);
      }
    }
  }

  /** Sorted with distinct names means strictly ranked. */
  lemma StrictlyRanked(u: seq<Book>, q: string)
    requires SortedByRank(u, q)
    requires forall i, j | 0 <= i < j < |u| :: u[i].name != u[j].name
    ensures forall i, j | 0 <= i < j < |u| :: RanksBefore(u[i].name, u[j].name, q)
  {
    forall i, j | 0 <= i < j < |u| ensures RanksBefore(u[i].name, u[j].name, q) {
      RankTotal(u[i].name, u[j].name, q);
    }
  }

  /** Lines 82-85: the five verse placeholders `<Book> <chapter>:1` to `:5`. */
  function VerseSuggestions(name: string, chapter: Option<int>): (r: seq<Suggestion>)
    ensures |r| == 5
  {
    seq(5, i requires 0 <= i < 5 =>
      Suggestion(Some(name + " " + NumberText(chapter) + ":" + IntToString(i + 1)), VerseSuggestion, None))
  }

  /** Lines 91-94: `<Book> n`, then `<Book> n1` to `<Book> n4`. */
  function ChapterSuggestions(name: string, n: int): (r: seq<Suggestion>)
    ensures |r| == 5
  {
    seq(5, i requires 0 <= i < 5 =>
      Suggestion(Some(name + " " + IntToString(n) + (if i == 0 then "" else IntToString(i))), ChapterSuggestion, None))
  }

  /** Line 103: one suggestion per version, its code as text and its name as description. */
  function VersionSuggestions(versions: seq<Version>): (r: seq<Suggestion>)
    ensures |r| == |versions|
    ensures forall i | 0 <= i < |r| ::
      && r[i].text == versions[i].code
      && r[i].kind == VersionSuggestion
      && r[i].description == Some(versions[i].name)
  {
    seq(|versions|, i requires 0 <= i < |versions| =>
      Suggestion(versions[i].code, VersionSuggestion, Some(versions[i].name)))
  }

  /** Lines 73-106: past the book token, for the first matching book. */
  function ReferenceSuggestions(input: string, remaining: seq<string>, book: Book, versions: seq<Version>): seq<Suggestion> {
    var refPart := if |remaining| > 0 then remaining[0] else "";
    if ':' in refPart then VerseSuggestions(book.name, ParseInt(SplitOn(refPart, ':')[0]))
    else if refPart != "" && ParseInt(refPart).Some? then ChapterSuggestions(book.name, ParseInt(refPart).value)
    else if refPart == "" && EndsWith(input, " ") then [Suggestion(Some(book.name + " 1"), ChapterSuggestion, None)]
    else if |remaining| >= 1 && EndsWith(input, " ") then VersionSuggestions(versions)
    else []
  }

  /** Still typing the book: no word after the book token and no trailing space. */
  predicate TypingBook(input: string, k: Tokens) {
    k.remaining == [] && !EndsWith(input, " ")
  }

  /** `getSuggestions`, as a function of its inputs. */
  function Suggestions(input: string, books: seq<Book>, versions: seq<Version>): seq<Suggestion> {
    var t := TrimStart(input);
    if t == [] then []
    else
      var k := Tokenize(t);
      var q := Lower(k.book);
      var matched := MatchBooks(books, q);
      if TypingBook(input, k) then BookSuggestions(matched, q)
      else if matched == [] then []
      else ReferenceSuggestions(input, k.remaining, matched[0], versions)
  }

  /** `getSuggestions` */
  method GetSuggestions(input: string, books: seq<Book>, versions: seq<Version>) returns (r: seq<Suggestion>)
    ensures r == Suggestions(input, books, versions)
  {
    var t := TrimStart(input);
    if t == [] {
      return [];
    }
    var k := Tokenize(t);
    var q := Lower(k.book);
    var matched := MatchBooks(books, q);
    if TypingBook(input, k) {
      var sorted := SortByRank(matched, q);
      var unique := DedupByName(sorted);
      return AsBookSuggestions(Top5(unique));
    }
    if matched == [] {
      return [];
    }
    r := ReferenceSuggestions(input, k.remaining, matched[0], versions);
  }

  // ---------------------------------------------------------------- what the cases promise

  lemma TrimStartEmpty(s: string)
    ensures TrimStart(s) == [] <==> !HasNonSpace(s)
  {
    var a := SkipSpaces(s, 0);
    if a < |s| {
      assert !IsSpace(s[a]);
    }
  }

  /** Blank input gives no suggestions. */
  lemma BlankInput(input: string, books: seq<Book>, versions: seq<Version>)
    requires !HasNonSpace(input)
    ensures Suggestions(input, books, versions) == []
  {
    TrimStartEmpty(input);
  }

  /** While the book is typed, the suggestions are the best book names for the typed token. */
  lemma WhileTypingBook(input: string, books: seq<Book>, versions: seq<Version>)
    requires HasNonSpace(input)
    ensures var k := Tokenize(TrimStart(input));
      TypingBook(input, k) ==>
        Suggestions(input, books, versions) == BookSuggestions(MatchBooks(books, Lower(k.book)), Lower(k.book))
  {
    TrimStartEmpty(input);
  }

  /**
   * Past the book token: nothing when no book matches; `<Book> 1` when only
   * whitespace ending in a space follows the book; five verse placeholders for a token with `:`;
   * five chapter placeholders for a numeric token; the versions when the
   * token is not numeric and a space ends the input; nothing otherwise.
   * `<Book>` is the first book, in the given order, that matches.
   */
  lemma PastBook(input: string, books: seq<Book>, versions: seq<Version>)
    requires HasNonSpace(input)
    requires !TypingBook(input, Tokenize(TrimStart(input)))
    ensures var k := Tokenize(TrimStart(input));
      var matched := MatchBooks(books, Lower(k.book));
      var r := Suggestions(input, books, versions);
      var refPart := if |k.remaining| > 0 then k.remaining[0] else "";
      && ((forall b | b in books :: !PrefixMatch(b, Lower(k.book))) ==> r == [])
      && (matched != [] ==>
            var name := matched[0].name;
            && (refPart == "" ==>
                  r == if EndsWith(input, " ") then [Suggestion(Some(name + " 1"), ChapterSuggestion, None)] else [])
            && (':' in refPart ==> r == VerseSuggestions(name, ParseInt(SplitOn(refPart, ':')[0])))
            && (':' !in refPart && ParseInt(refPart).Some? ==> r == ChapterSuggestions(name, ParseInt(refPart).value))
            && (refPart != "" && ':' !in refPart && ParseInt(refPart).None? ==>
                  r == if EndsWith(input, " ") then VersionSuggestions(versions) else []))
  {
    TrimStartEmpty(input);
    var t := TrimStart(input);
    var k := Tokenize(t);
    var matched := MatchBooks(books, Lower(k.book));
    if matched != [] {
      assert matched[0] in matched;
    }
  }

  // ---------------------------------------------------------------- placeholders read back

  /** Every verse placeholder, once submitted, reads as that book, chapter and verse. */
  lemma VerseSuggestionParses(name: string, chapter: nat, i: nat, books: seq<Book>)
    requires IsBookToken(name) && !IsSpace(name[0]) && i < 5
    ensures var r := ParseReference(VerseSuggestions(name, Some(chapter))[i].text.value, books);
      && r.book == FindBook(books, Lower(Trim(name)))
      && r.chapter == Some(chapter)
      && r.verseStart == Some(i + 1) && r.verseEnd == None
      && r.versionCode == None
  {
    var m := RefMatch(name, ' ', NatToString(chapter), Some(VerseRaw(NatToString(i + 1), None)), None);
    VerseSuggestionText(name, chapter, i);
    DigitsOfNat(chapter);
    DigitsOfNat(i + 1);
    assert WellFormed(m);
    ParseOfReading(m, books);
  }

  lemma VerseSuggestionText(name: string, chapter: nat, i: nat)
    requires i < 5
    ensures VerseSuggestions(name, Some(chapter))[i].text ==
            Some(Render(RefMatch(name, ' ', NatToString(chapter), Some(VerseRaw(NatToString(i + 1), None)), None)))
  {
    var c, v := NatToString(chapter), NatToString(i + 1);
    assert NumberText(Some(chapter)) == c;
    assert IntToString(i + 1) == v;
    assert VersesText(Some(VerseRaw(v, None))) == ":" + v;
    assert name + " " + c + ":" + v == name + [' '] + c + (":" + v) + "";
  }

  /** Every chapter placeholder for a chapter `n`, once submitted, reads as that book and chapter `n`, then `10n + i`. */
  lemma ChapterSuggestionParses(name: string, n: nat, i: nat, books: seq<Book>)
    requires IsBookToken(name) && !IsSpace(name[0]) && i < 5
    ensures var r := ParseReference(ChapterSuggestions(name, n)[i].text.value, books);
      && r.book == FindBook(books, Lower(Trim(name)))
      && r.chapter == Some(if i == 0 then n else 10 * n + i)
      && r.verseStart == None && r.versionCode == None
  {
    var digits := NatToString(n) + (if i == 0 then "" else NatToString(i));
    var m := RefMatch(name, ' ', digits, None, None);
    assert Render(m) == ChapterSuggestions(name, n)[i].text.value;
    ParseOfReading(m, books);
    ChapterDigits(n, i);
  }

  lemma ChapterDigits(n: nat, i: nat)
    requires i < 10
    ensures var digits := NatToString(n) + (if i == 0 then "" else NatToString(i));
      IsDigitRun(digits) && DigitsValue(digits) == if i == 0 then n else 10 * n + i
  {
    DigitsOfNat(n);
    if i > 0 {
      var digits := NatToString(n) + NatToString(i);
      assert NatToString(i) == [DigitChar(i)];
      assert digits[..|digits| - 1] == NatToString(n);
      assert digits[|digits| - 1] == DigitChar(i);
      assert AllDigits(digits) by {
        forall k | 0 <= k < |digits| ensures IsDigit(digits[k]) {
          if k < |NatToString(n)| { assert digits[k] == NatToString(n)[k]; }
        }
      }
      assert DigitsValue(digits) == DigitsValue(NatToString(n)) * 10 + i;
    } else {
      assert NatToString(n) + "" == NatToString(n);
    }
  }

  // ---------------------------------------------------------------- getSmartTransform

  /** The captures of `^([1-3]?\s*[A-Za-z\s]+)\s+(\d+)\s$`; the book group is greedy. */
  datatype ChapterEnd = ChapterEnd(book: string, sep: char, chapter: string, last: char)

  predicate ChapterEndShape(m: ChapterEnd) {
    IsBookToken(m.book) && IsSpace(m.sep) && IsDigitRun(m.chapter) && IsSpace(m.last)
  }

  function ChapterEndText(m: ChapterEnd): string {
    m.book + [m.sep] + m.chapter + [m.last]
  }

  /** The scan for `^([1-3]?\s*[A-Za-z\s]+)\s+(\d+)\s$`. */
  function MatchChapterEnd(t: string): Option<ChapterEnd> {
    if t == [] then None
    else
      var p := if '1' <= t[0] <= '3' then 1 else 0;
      var k := SkipLettersOrSpaces(t, p);
      if k < p + 2 || k == |t| || !IsDigit(t[k]) || !IsSpace(t[k - 1]) then None
      else
        var e := SkipDigits(t, k);
        if e + 1 != |t| || !IsSpace(t[e]) then None
        else Some(ChapterEnd(t[..k - 1], t[k - 1], t[k..e], t[e]))
  }

  lemma ChapterEndSound(t: string, m: ChapterEnd)
    requires MatchChapterEnd(t) == Some(m)
    ensures ChapterEndShape(m) && ChapterEndText(m) == t
  {
    var p := if '1' <= t[0] <= '3' then 1 else 0;
    var k := SkipLettersOrSpaces(t, p);
    var e := SkipDigits(t, k);
    assert t[..k] == t[..k - 1] + [t[k - 1]];
    assert t[..e] == t[..k] + t[k..e];
    assert t == t[..e] + [t[e]];
    if p == 1 {
      assert m.book[1..] == t[1..k - 1];
    }
  }

  lemma ChapterEndComplete(t: string, m: ChapterEnd)
    requires ChapterEndShape(m) && ChapterEndText(m) == t
    ensures MatchChapterEnd(t) == Some(m)
  {
    assert t == m.book + [m.sep] + (m.chapter + [m.last]);
    var k := BookScan(t, m.book, m.sep, m.chapter + [m.last]);
    var e := DigitsScan(t, k, m.chapter, [m.last]);
    assert t[e] == t[e..][0] == m.last;
    assert e + 1 == |t| && IsSpace(t[e]);
    assert ChapterEnd(t[..k - 1], t[k - 1], t[k..e], t[e]) == m;
  }

  /** The pattern matches `t` in exactly one way, or in none. */
  lemma ChapterEndUnique(t: string, m: ChapterEnd)
    ensures MatchChapterEnd(t) == Some(m) <==> ChapterEndShape(m) && ChapterEndText(m) == t
  {
    if MatchChapterEnd(t) == Some(m) {
      ChapterEndSound(t, m);
    }
    if ChapterEndShape(m) && ChapterEndText(m) == t {
      ChapterEndComplete(t, m);
    }
  }

  /** `getSmartTransform` */
  function SmartTransform(input: string): string {
    match MatchChapterEnd(input)
    case None => input
    case Some(m) => Trim(m.book) + " " + m.chapter + ":"
  }

  /**
   * `<book> <digits><one whitespace>` becomes `<trimmed book> <digits>:`, and
   * text of no other shape is left as it is.
   */
  lemma SmartTransformSpec(input: string)
    ensures (forall m :: !(ChapterEndShape(m) && ChapterEndText(m) == input)) ==> SmartTransform(input) == input
    ensures forall m | ChapterEndShape(m) && ChapterEndText(m) == input ::
              SmartTransform(input) == Trim(m.book) + " " + m.chapter + ":"
  {
    forall m | ChapterEndShape(m) && ChapterEndText(m) == input
      ensures SmartTransform(input) == Trim(m.book) + " " + m.chapter + ":"
    {
      ChapterEndComplete(input, m);
    }
    if MatchChapterEnd(input).Some? {
      ChapterEndSound(input, MatchChapterEnd(input).value);
    }
  }

  /** Text that does not end in whitespace is never rewritten. */
  lemma NoTrailingSpaceKept(t: string)
    requires t == [] || !IsSpace(t[|t| - 1])
    ensures SmartTransform(t) == t
  {
  }

  /** Rewriting twice is rewriting once. */
  lemma SmartTransformIdempotent(input: string)
    ensures SmartTransform(SmartTransform(input)) == SmartTransform(input)
  {
    var o := SmartTransform(input);
    if o != input {
      assert o[|o| - 1] == ':';
      NoTrailingSpaceKept(o);
    }
  }
}
