/**
 * The scripture search box (src/features/scripture/components/ScriptureInput.tsx):
 * the decision taken on each change of the text (inline completion of the
 * book, the character filter once the book is typed, the chapter rewrite),
 * and the state the box keeps: its value, the suggestions, the selected
 * suggestion and whether the list is open.
 */
module ScriptureInput {
  import opened Wrappers
  import opened Text
  import opened ScriptureDb
  import opened ReferenceParser
  import opened Autocomplete
  import Sequences

  // ---------------------------------------------------------------- the keystroke decision

  /** Line 95: more words than the book token takes; a trailing space makes an empty last word. */
  predicate BookTypingDone(t: string) {
    var parts := SplitSpaces(t);
    if IsBookNumber(parts[0]) then |parts| > 2 else |parts| > 1
  }

  /** Line 128: `/^[0-9:\-\sA-Za-z]$/`. */
  predicate AllowedAfterBook(c: char) {
    IsDigit(c) || c == ':' || c == '-' || IsSpace(c) || IsLetter(c)
  }

  /** Once the book is typed, the filter accepts what `isValidCharacter` accepts, except `.`. */
  lemma AllowedAfterBookValid(c: char)
    ensures AllowedAfterBook(c) <==> IsValidCharacter([c]) && c != '.'
  {
  }

  /**
   * Lines 97-122: while the book is typed, the value `<Name> ` when every
   * book the token prefixes bears that one name and completing makes the
   * text longer.
   */
  function Completion(newVal: string, books: seq<Book>): Option<string> {
    var matches := MatchBooks(books, Lower(Tokenize(TrimStart(newVal)).book));
    if matches != [] && |NameSet(matches)| == 1 && |matches[0].name| + 1 > |newVal| then Some(matches[0].name + " ")
    else None
  }

  /**
   * Lines 85-135: what `handleChange` stores for the text `newVal` when the
   * box held `oldVal`; `None` when the keystroke is rejected and the value
   * stays as it was.
   */
  function NextValue(oldVal: string, newVal: string, books: seq<Book>): Option<string> {
    var trim := TrimStart(newVal);
    if trim != [] && |newVal| > |oldVal| then
      if !BookTypingDone(trim) then
        var c := Completion(newVal, books);
        if c.Some? then c else Some(SmartTransform(newVal))
      else if !AllowedAfterBook(newVal[|newVal| - 1]) then None
      else Some(SmartTransform(newVal))
    else
      Some(SmartTransform(newVal))
  }

  /** A set of one element is a singleton, one with two different elements is larger. */
  lemma SingletonSet(s: set<string>, x: string)
    requires x in s
    ensures |s| == 1 <==> forall y | y in s :: y == x
  {
    if |s| == 1 {
      assert |s - {x}| == 0;
      assert forall y | y in s :: y in s - {x} || y == x;
    } else {
      assert s != {x} by {
        assert |{x}| == 1;
      }
      var y :| y in s && y !in {x};
    }
  }

  /**
   * The completion happens exactly when some book the token prefixes has a
   * name one longer than the text lacks, and every such book has that name;
   * it is then that name and a space, strictly longer than the text.
   */
  lemma CompletionSpec(newVal: string, books: seq<Book>)
    ensures var q := Lower(Tokenize(TrimStart(newVal)).book);
      && (Completion(newVal, books).Some? <==>
            exists b | b in books && PrefixMatch(b, q) ::
              |b.name| + 1 > |newVal| && forall b' | b' in books && PrefixMatch(b', q) :: b'.name == b.name)
      && (Completion(newVal, books).Some? ==>
            && |Completion(newVal, books).value| > |newVal|
            && exists b | b in books && PrefixMatch(b, q) :: Completion(newVal, books).value == b.name + " ")
  {
    var q := Lower(Tokenize(TrimStart(newVal)).book);
    var matches := MatchBooks(books, q);
    if matches != [] {
      var b := matches[0];
      assert b.name in NameSet(matches);
      SingletonSet(NameSet(matches), b.name);
      assert (forall y | y in NameSet(matches) :: y == b.name) <==>
             (forall b' | b' in books && PrefixMatch(b', q) :: b'.name == b.name) by {
        forall b' | b' in books && PrefixMatch(b', q) ensures b'.name in NameSet(matches) {
          var i :| 0 <= i < |matches| && matches[i] == b';
        }
      }
      forall c | c in books && PrefixMatch(c, q) &&
                 forall b' | b' in books && PrefixMatch(b', q) :: b'.name == c.name
        ensures c.name == b.name
      {
      }
    }
  }

  /**
   * The decision: a keystroke is rejected exactly when the text grew, is not
   * blank, the book is typed and the last character is not allowed; the
   * completion applies only while the book is typed; every other accepted
   * text is stored after the chapter rewrite.
   */
  lemma NextValueSpec(oldVal: string, newVal: string, books: seq<Book>)
    ensures var gate := TrimStart(newVal) != [] && |newVal| > |oldVal|;
      && (NextValue(oldVal, newVal, books).None? <==>
            gate && BookTypingDone(TrimStart(newVal)) && !AllowedAfterBook(newVal[|newVal| - 1]))
      && (gate && !BookTypingDone(TrimStart(newVal)) && Completion(newVal, books).Some? ==>
            NextValue(oldVal, newVal, books) == Completion(newVal, books))
      && (!(gate && !BookTypingDone(TrimStart(newVal)) && Completion(newVal, books).Some?) &&
          NextValue(oldVal, newVal, books).Some? ==>
            NextValue(oldVal, newVal, books) == Some(SmartTransform(newVal)))
  {
  }

  /**
   * Handing the box the text it already holds never completes or rejects
   * it, and a text the rewrite produced stays as it is, so completion
   * cannot loop.
   */
  lemma ResubmitStable(v: string, x: string, books: seq<Book>)
    ensures NextValue(v, v, books) == Some(SmartTransform(v))
    ensures var w := SmartTransform(x); NextValue(w, w, books) == Some(w)
  {
    SmartTransformIdempotent(x);
  }

  /** Words joined by single spaces and a trailing space split into the words and one empty word. */
  lemma {:induction false} SplitJoinTrailing(ws: seq<string>)
    requires |ws| >= 1
    requires forall k | 0 <= k < |ws| :: |ws[k]| > 0 && NoSpace(ws[k])
    ensures SplitSpaces(Join(ws, " ") + " ") == ws + [""]
    decreases |ws|
  {
    var w := ws[0];
    if |ws| > 1 {
      var rest := Join(ws[1..], " ");
      assert Join(ws, " ") + " " == w + " " + (rest + " ");
      JoinStart(ws[1..]);
      SplitStep(w, rest + " ");
      SplitJoinTrailing(ws[1..]);
      Sequences.ConsAppend(ws, "");
    } else {
      assert Join(ws, " ") + " " == w + " " + "";
      SplitStep(w, "");
      FindSpaceAt("", 0, 0);
    }
  }

  /** How many words the book token takes. */
  function BookWords(ws: seq<string>): nat
    requires |ws| >= 1
  {
    if IsBookNumber(ws[0]) then 2 else 1
  }

  /**
   * On words typed with single spaces, the book is done exactly when more
   * words follow than the book token takes, a trailing space counting as
   * one more word.
   */
  lemma BookTypingDoneWords(ws: seq<string>)
    requires |ws| >= 1
    requires forall k | 0 <= k < |ws| :: |ws[k]| > 0 && NoSpace(ws[k])
    ensures BookTypingDone(Join(ws, " ")) <==> |ws| > BookWords(ws)
    ensures BookTypingDone(Join(ws, " ") + " ") <==> |ws| + 1 > BookWords(ws)
  {
    SplitJoin(ws);
    SplitJoinTrailing(ws);
  }

  // ---------------------------------------------------------------- the selection

  /** Line 59: ArrowDown in a list of `n`. */
  function CycleDown(i: int, n: int): (r: int)
    requires 0 <= i && n > 0
    ensures 0 <= r < n
    ensures i < n - 1 ==> r == i + 1
    ensures i == n - 1 ==> r == 0
  {
    (i + 1) % n
  }

  /** Line 63: ArrowUp in a list of `n`. */
  function CycleUp(i: int, n: int): (r: int)
    requires 0 <= i && n > 0
    ensures 0 <= r < n
    ensures 0 < i < n ==> r == i - 1
    ensures i == 0 ==> r == n - 1
  {
    (i - 1 + n) % n
  }

  /** ArrowUp undoes ArrowDown and ArrowDown undoes ArrowUp. */
  lemma CycleInverse(i: int, n: int)
    requires 0 <= i < n
    ensures CycleUp(CycleDown(i, n), n) == i
    ensures CycleDown(CycleUp(i, n), n) == i
  {
  }

  /** The keys `handleKeyDown` looks at, and every other key. */
  datatype Key = ArrowDown | ArrowUp | Enter | Tab | Escape | OtherKey

  /** Applying a suggestion without text: the source stores `undefined` as the value. */
  datatype InputError = UndefinedValue

  /** The state of the search box; its books and versions are the ones it was given. */
  class SearchBox {
    const books: seq<Book>
    const versions: seq<Version>
    var value: string
    var suggestions: seq<Suggestion>
    var selectedIndex: int
    var showDropdown: bool

    /** The list is open only with something in it, and the selection is a position in it (0 when empty). */
    predicate Valid()
      reads this
    {
      && 0 <= selectedIndex
      && (selectedIndex < |suggestions| || selectedIndex == 0)
      && (showDropdown ==> |suggestions| > 0)
    }

    /** Lines 32-35 */
    constructor (books: seq<Book>, versions: seq<Version>)
      ensures Valid()
      ensures this.books == books && this.versions == versions
      ensures value == "" && suggestions == [] && selectedIndex == 0 && !showDropdown
    {
      this.books := books;
      this.versions := versions;
      value := "";
      suggestions := [];
      selectedIndex := 0;
      showDropdown := false;
    }

    /** Lines 46-51: the suggestions for `val`, the first one selected, the list open iff any. */
    method UpdateSuggestions(val: string)
      modifies this
      ensures Valid()
      ensures value == old(value)
      ensures suggestions == Suggestions(val, books, versions)
      ensures selectedIndex == 0 && showDropdown == (|suggestions| > 0)
    {
      var s := GetSuggestions(val, books, versions);
      suggestions := s;
      selectedIndex := 0;
      showDropdown := |s| > 0;
    }

    /**
     * Lines 85-135: a rejected keystroke changes nothing; otherwise the
     * decided value is stored and the suggestions are those of that value.
     */
    method HandleChange(newVal: string)
      requires Valid()
      modifies this
      ensures Valid()
      ensures NextValue(old(value), newVal, books).None? ==>
        value == old(value) && suggestions == old(suggestions) &&
        selectedIndex == old(selectedIndex) && showDropdown == old(showDropdown)
      ensures NextValue(old(value), newVal, books).Some? ==>
        && value == NextValue(old(value), newVal, books).value
        && suggestions == Suggestions(value, books, versions)
        && selectedIndex == 0 && showDropdown == (|suggestions| > 0)
    {
      var next := NextValue(value, newVal, books);
      if next.None? {
        return;
      }
      value := next.value;
      UpdateSuggestions(value);
    }

    /** Lines 78-83: the suggestion's text becomes the value, and its suggestions are shown. */
    method ApplySuggestion(text: string)
      modifies this
      ensures Valid()
      ensures value == text && suggestions == Suggestions(text, books, versions)
      ensures selectedIndex == 0 && showDropdown == (|suggestions| > 0)
    {
      value := text;
      showDropdown := false;
      UpdateSuggestions(text);
    }

    /**
     * Lines 53-76: with the list closed nothing happens; the arrows move the
     * selection cyclically; Enter and Tab apply the selected suggestion;
     * Escape closes the list. Applying a suggestion without text fails, as
     * `Choose` says.
     */
    method HandleKeyDown(key: Key) returns (r: Result<(), InputError>)
      requires Valid()
      modifies this
      ensures Valid()
      ensures r.Failure? <==>
        old(showDropdown) && (key == Enter || key == Tab) && old(suggestions)[old(selectedIndex)].text.None?
      ensures !old(showDropdown) || key == OtherKey ==>
        value == old(value) && suggestions == old(suggestions) &&
        selectedIndex == old(selectedIndex) && showDropdown == old(showDropdown)
      ensures old(showDropdown) && key == ArrowDown ==>
        value == old(value) && suggestions == old(suggestions) && showDropdown &&
        selectedIndex == CycleDown(old(selectedIndex), |suggestions|)
      ensures old(showDropdown) && key == ArrowUp ==>
        value == old(value) && suggestions == old(suggestions) && showDropdown &&
        selectedIndex == CycleUp(old(selectedIndex), |suggestions|)
      ensures old(showDropdown) && key == Escape ==>
        value == old(value) && suggestions == old(suggestions) &&
        selectedIndex == old(selectedIndex) && !showDropdown
      ensures old(showDropdown) && (key == Enter || key == Tab) ==>
        var chosen := old(suggestions)[old(selectedIndex)];
        if chosen.text.Some? then
          value == chosen.text.value && suggestions == Suggestions(value, books, versions) &&
          selectedIndex == 0 && showDropdown == (|suggestions| > 0)
        else
          value == old(value) && suggestions == old(suggestions) &&
          selectedIndex == old(selectedIndex) && !showDropdown
    {
      r := Success(());
      if !showDropdown {
        return;
      }
      match key
      case ArrowDown =>
        selectedIndex := CycleDown(selectedIndex, |suggestions|);
      case ArrowUp =>
        selectedIndex := CycleUp(selectedIndex, |suggestions|);
      case Enter =>
        r := Choose();
      case Tab =>
        r := Choose();
      case Escape =>
        showDropdown := false;
      case OtherKey =>
    }

    /**
     * Lines 65-70, 78-83: apply the selected suggestion. A version without a
     * code offers a suggestion without text; applying it stores `undefined`
     * as the value, closes the list, and the suggestion update it starts
     * rejects, so the old suggestions stay. That is a failure here: the
     * list is closed and the value and the suggestions are kept.
     */
    method Choose() returns (r: Result<(), InputError>)
      requires Valid() && showDropdown
      modifies this
      ensures Valid()
      ensures r.Failure? <==> old(suggestions)[old(selectedIndex)].text.None?
      ensures r.Failure? ==> r.error == UndefinedValue
      ensures var chosen := old(suggestions)[old(selectedIndex)];
        if chosen.text.Some? then
          value == chosen.text.value && suggestions == Suggestions(value, books, versions) &&
          selectedIndex == 0 && showDropdown == (|suggestions| > 0)
        else
          value == old(value) && suggestions == old(suggestions) &&
          selectedIndex == old(selectedIndex) && !showDropdown
    {
      var chosen := suggestions[selectedIndex];
      if chosen.text.Some? {
        ApplySuggestion(chosen.text.value);
        r := Success(());
      } else {
        showDropdown := false;
        r := Failure(UndefinedValue);
      }
    }
  }
}
