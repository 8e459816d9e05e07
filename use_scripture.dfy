/**
 * The scripture hook (src/features/scripture/hooks/useScripture.ts): looking
 * up the verses of a parsed reference, uninstalling a version, and the
 * `activeImport` state that shows the progress of a running import.
 *
 * The installed versions reach the lookup as the list the live query read
 * (`db.versions.toArray()`, in key order).
 */
module UseScripture {
  import opened Wrappers
  import opened Text
  import opened ScriptureDb
  import opened ReferenceParser
  import opened ImportPipeline

  /** `v.code.toLowerCase()` on a version without a code throws a `TypeError`. */
  datatype LookupError = CodelessVersion(id: string)

  // ---------------------------------------------------------------- choosing the version

  /** Line 59: a reference without a book, with a missing or 0 chapter, or with errors finds nothing. */
  predicate Incomplete(ref: ParsedReference) {
    ref.book.None? || ref.chapter.None? || ref.chapter.value == 0 || |ref.errors| > 0
  }

  /** Lines 62-65: does `v` answer to `code`? No lower-cased string equals `undefined`. */
  function MatchesCode(v: Version, code: Option<string>): Result<bool, LookupError> {
    if v.code.None? then Failure(CodelessVersion(v.id))
    else Success(code.Some? && (Lower(v.code.value) == Lower(code.value) || Lower(v.id) == Lower(code.value)))
  }

  /** Line 72 */
  function IsNkjv(v: Version): Result<bool, LookupError> {
    if v.code.None? then Failure(CodelessVersion(v.id)) else Success(Upper(v.code.value) == "NKJV")
  }

  /** Where `versions.find(test)` stops: the first version the test accepts or throws on. */
  function FindIndex(versions: seq<Version>, test: Version -> Result<bool, LookupError>): (i: nat)
    ensures i <= |versions|
    ensures forall j | 0 <= j < i :: test(versions[j]) == Success(false)
    ensures i < |versions| ==> test(versions[i]) != Success(false)
    decreases |versions|
  {
    if versions == [] then 0
    else if test(versions[0]) != Success(false) then 0
    else 1 + FindIndex(versions[1..], test)
  }

  /** `versions.find(test)` with a test that may throw. */
  function Find(versions: seq<Version>, test: Version -> Result<bool, LookupError>): Result<Option<Version>, LookupError> {
    var i := FindIndex(versions, test);
    if i == |versions| then Success(None)
    else if test(versions[i]).Failure? then Failure(test(versions[i]).error)
    else Success(Some(versions[i]))
  }

  /**
   * `find` gives the first version the test accepts, with every earlier one
   * rejected; it throws exactly when the test throws on a version before any
   * is accepted; and it gives `undefined` exactly when every version is
   * rejected.
   */
  lemma FindSpec(versions: seq<Version>, test: Version -> Result<bool, LookupError>)
    ensures var r := Find(versions, test);
      && (r == Success(None) <==> forall j | 0 <= j < |versions| :: test(versions[j]) == Success(false))
      && (r.Success? && r.value.Some? ==>
            exists i | 0 <= i < |versions| :: && versions[i] == r.value.value && test(versions[i]) == Success(true)
                                              && forall j | 0 <= j < i :: test(versions[j]) == Success(false))
      && (r.Failure? ==>
            exists i | 0 <= i < |versions| :: && test(versions[i]) == Failure(r.error)
                                              && forall j | 0 <= j < i :: test(versions[j]) == Success(false))
  {
    var i := FindIndex(versions, test);
    var r := Find(versions, test);
    if i < |versions| {
      assert test(versions[i]) != Success(false);
      if r.Failure? {
        assert test(versions[i]) == Failure(r.error);
      } else {
        var t := test(versions[i]);
        assert t.Success? && t.value;
        assert t == Success(true);
      }
    }
  }

  /**
   * Lines 62-77: the version to read from. A given code must match; with no
   * code the NKJV version is preferred, and otherwise the first installed one.
   */
  function TargetVersion(versions: seq<Version>, code: Option<string>): Result<Option<Version>, LookupError> {
    var found :- Find(versions, v => MatchesCode(v, code));
    if found.None? && |versions| > 0 && (code.None? || code.value == "") then
      var nkjv :- Find(versions, IsNkjv);
      Success(if nkjv.Some? then nkjv else Some(versions[0]))
    else
      Success(found)
  }

  /**
   * With a code, the target is the first version whose code or id equals it
   * in lower case, and there is no fallback. Without one, it is the first
   * version whose code is `NKJV` in upper case, else the first version; none
   * only when nothing is installed. A version without a code that the search
   * reaches makes the lookup throw.
   */
  lemma TargetVersionSpec(versions: seq<Version>, code: Option<string>)
    requires forall j | 0 <= j < |versions| :: versions[j].code.Some?
    ensures var r := TargetVersion(versions, code);
      && r.Success?
      && (code.Some? && code.value != "" ==>
            && (r.value.None? <==> forall j | 0 <= j < |versions| ::
                  Lower(versions[j].code.value) != Lower(code.value) && Lower(versions[j].id) != Lower(code.value))
            && (r.value.Some? ==>
                  && (Lower(r.value.value.code.value) == Lower(code.value) || Lower(r.value.value.id) == Lower(code.value))
                  && exists i | 0 <= i < |versions| :: && versions[i] == r.value.value
                       && forall j | 0 <= j < i ::
                            Lower(versions[j].code.value) != Lower(code.value) && Lower(versions[j].id) != Lower(code.value)))
      && (code.None? ==>
            && (r.value.None? <==> versions == [])
            && (r.value.Some? && Upper(r.value.value.code.value) == "NKJV" ==>
                  exists i | 0 <= i < |versions| :: && versions[i] == r.value.value
                    && forall j | 0 <= j < i :: Upper(versions[j].code.value) != "NKJV")
            && (r.value.Some? && Upper(r.value.value.code.value) != "NKJV" ==>
                  r.value.value == versions[0] && forall j | 0 <= j < |versions| :: Upper(versions[j].code.value) != "NKJV"))
  {
    var m := (v: Version) => MatchesCode(v, code);
    FindSpec(versions, m);
    FindSpec(versions, IsNkjv);
    var found := Find(versions, m);
    forall j | 0 <= j < |versions| ensures m(versions[j]).Success? && IsNkjv(versions[j]).Success? {
    }
  }

  // ---------------------------------------------------------------- the rows of a chapter

  /** The index `[version+bookId+chapter]` equals `(versionId, bookId, chapter)`. */
  predicate InChapter(v: Verse, versionId: string, bookId: string, chapter: int) {
    v.version == versionId && v.bookId == bookId && v.chapter == chapter
  }

  /** `v` is a row of the table `m`, under its own key. */
  predicate Holds(m: map<string, Verse>, v: Verse) {
    v.pk in m && m[v.pk] == v
  }

  /**
   * Lines 80-84: the rows the index query returns, each once; their order
   * among themselves is the index's and is left open here.
   */
  method QueryChapter(store: ScriptureStore, versionId: string, bookId: string, chapter: int) returns (rows: seq<Verse>)
    requires store.Valid()
    ensures forall v :: multiset(rows)[v] == if Holds(store.verses, v) && InChapter(v, versionId, bookId, chapter) then 1 else 0
  {
    var keys := store.verses.Keys;
    rows := [];
    while keys != {}
      invariant keys <= store.verses.Keys
      invariant forall u :: multiset(rows)[u] ==
                  if Holds(store.verses, u) && InChapter(u, versionId, bookId, chapter) && u.pk !in keys then 1 else 0
      decreases |keys|
    {
      var k :| k in keys;
      var v := store.verses[k];
      ghost var before := rows;
      if InChapter(v, versionId, bookId, chapter) {
        rows := rows + [v];
      }
      QueryStep(store.verses, before, rows, keys, k, versionId, bookId, chapter);
      keys := keys - {k};
    }
  }

  /** One step of the scan: the row under `k` joins the result when it is in the chapter. */
  lemma QueryStep(m: map<string, Verse>, before: seq<Verse>, rows: seq<Verse>, keys: set<string>, k: string,
                  versionId: string, bookId: string, chapter: int)
    requires k in keys && k in m && m[k].pk == k
    requires forall u :: multiset(before)[u] ==
               if Holds(m, u) && InChapter(u, versionId, bookId, chapter) && u.pk !in keys then 1 else 0
    requires rows == if InChapter(m[k], versionId, bookId, chapter) then before + [m[k]] else before
    ensures forall u :: multiset(rows)[u] ==
              if Holds(m, u) && InChapter(u, versionId, bookId, chapter) && u.pk !in keys - {k} then 1 else 0
  {
    forall u ensures multiset(rows)[u] ==
        if Holds(m, u) && InChapter(u, versionId, bookId, chapter) && u.pk !in keys - {k} then 1 else 0
    {
      if u == m[k] {
        assert u.pk == k ==> Holds(m, u);
      } else {
        assert multiset(rows)[u] == multiset(before)[u];
        assert u.pk == k ==> !Holds(m, u);
      }
    }
  }

  /** Lines 86-92: the range a reference asks for; a missing or 0 number is no bound. */
  predicate InRange(v: Verse, start: Option<int>, end: Option<int>) {
    if start.Some? && start.value != 0 then
      if end.Some? && end.value != 0 then start.value <= v.verse <= end.value else v.verse == start.value
    else true
  }

  /** Lines 86-92: `results.filter(...)`, keeping the rows in range and their order. */
  function FilterRange(s: seq<Verse>, start: Option<int>, end: Option<int>): (r: seq<Verse>)
    ensures forall v :: multiset(r)[v] == if InRange(v, start, end) then multiset(s)[v] else 0
    decreases |s|
  {
    if s == [] then []
    else
      var init := FilterRange(s[..|s| - 1], start, end);
      var last := s[|s| - 1];
      assert s == s[..|s| - 1] + [last];
      if InRange(last, start, end) then init + [last] else init
  }

  predicate SortedByVerse(s: seq<Verse>) {
    forall i, j | 0 <= i < j < |s| :: s[i].verse <= s[j].verse
  }

  /** Puts `v` before the first row whose verse is not smaller, so equal verses keep their order. */
  function InsertByVerse(v: Verse, s: seq<Verse>): seq<Verse>
    decreases |s|
  {
    if s == [] then [v]
    else if s[0].verse < v.verse then [s[0]] + InsertByVerse(v, s[1..])
    else [v] + s
  }

  /** Line 94: `results.sort((a, b) => a.verse - b.verse)`, a stable sort. */
  function SortByVerse(s: seq<Verse>): seq<Verse>
    decreases |s|
  {
    if s == [] then [] else InsertByVerse(s[0], SortByVerse(s[1..]))
  }

  lemma {:induction false} InsertByVerseFacts(v: Verse, s: seq<Verse>)
    requires SortedByVerse(s)
    ensures SortedByVerse(InsertByVerse(v, s))
    ensures multiset(InsertByVerse(v, s)) == multiset(s) + multiset{v}
    decreases |s|
  {
    if s != [] {
      assert s == [s[0]] + s[1..];
      if s[0].verse < v.verse {
        var t := InsertByVerse(v, s[1..]);
        InsertByVerseFacts(v, s[1..]);
        NoneBelowHead(v, s, t);
        PrependByVerse(s[0], t);
      } else {
        PrependByVerse(v, s);
      }
    }
  }

  /** Nothing in `s[1..]` with `v` added has a smaller verse than the head of a sorted `s`. */
  lemma NoneBelowHead(v: Verse, s: seq<Verse>, t: seq<Verse>)
    requires s != [] && SortedByVerse(s) && s[0].verse <= v.verse
    requires multiset(t) == multiset(s[1..]) + multiset{v}
    ensures forall j | 0 <= j < |t| :: s[0].verse <= t[j].verse
  {
    forall j | 0 <= j < |t| ensures s[0].verse <= t[j].verse {
      assert t[j] in multiset(t);
      if t[j] != v {
        assert t[j] in multiset(s[1..]);
        var k :| 0 <= k < |s[1..]| && s[1..][k] == t[j];
        assert s[k + 1] == t[j];
      }
    }
  }

  lemma PrependByVerse(v: Verse, s: seq<Verse>)
    requires SortedByVerse(s)
    requires forall j | 0 <= j < |s| :: v.verse <= s[j].verse
    ensures SortedByVerse([v] + s)
  {
    var r := [v] + s;
    forall i, j | 0 <= i < j < |r| ensures r[i].verse <= r[j].verse {
      assert r[j] == s[j - 1];
      if i > 0 { assert r[i] == s[i - 1]; }
    }
  }

  /** The sort orders the rows by verse and keeps every row as often as it was there. */
  lemma {:induction false} SortByVerseFacts(s: seq<Verse>)
    ensures SortedByVerse(SortByVerse(s))
    ensures multiset(SortByVerse(s)) == multiset(s)
    decreases |s|
  {
    if s != [] {
      SortByVerseFacts(s[1..]);
      InsertByVerseFacts(s[0], SortByVerse(s[1..]));
      assert s == [s[0]] + s[1..];
      assert multiset(s) == multiset(s[1..]) + multiset{s[0]};
    }
  }

  /** The verses a complete reference asks for from version `versionId`. */
  predicate Wanted(v: Verse, versionId: string, ref: ParsedReference)
    requires ref.book.Some? && ref.chapter.Some?
  {
    InChapter(v, versionId, ref.book.value.id, ref.chapter.value) && InRange(v, ref.verseStart, ref.verseEnd)
  }

  /**
   * Lines 58-95. An incomplete reference, or one with no version to read,
   * finds nothing; otherwise the result holds exactly the stored verses of
   * the target version, book and chapter within the asked range, each once,
   * in verse order. The lookup throws only where choosing the version does.
   */
  method LookupRef(store: ScriptureStore, versions: seq<Version>, ref: ParsedReference) returns (r: Result<seq<Verse>, LookupError>)
    requires store.Valid()
    ensures Incomplete(ref) ==> r == Success([])
    ensures !Incomplete(ref) ==>
      var target := TargetVersion(versions, ref.versionCode);
      && (target.Failure? ==> r == Failure(target.error))
      && (target == Success(None) ==> r == Success([]))
      && (target.Success? && target.value.Some? ==>
            && r.Success? && SortedByVerse(r.value)
            && forall v :: multiset(r.value)[v] == if Holds(store.verses, v) && Wanted(v, target.value.value.id, ref) then 1 else 0)
  {
    if Incomplete(ref) {
      return Success([]);
    }
    var target := TargetVersion(versions, ref.versionCode);
    if target.Failure? {
      return Failure(target.error);
    }
    if target.value.None? {
      return Success([]);
    }
    var versionId := target.value.value.id;
    var results := QueryChapter(store, versionId, ref.book.value.id, ref.chapter.value);
    results := FilterRange(results, ref.verseStart, ref.verseEnd);
    SortByVerseFacts(results);
    r := Success(SortByVerse(results));
  }

  // ---------------------------------------------------------------- uninstalling

  /** Lines 48-51: delete the version row and every verse whose `version` is `id`; the books stay. */
  function Uninstall(t: Tables, id: string): Tables {
    Tables(t.versions - {id}, t.books, VersesNotOf(t.verses, id))
  }

  /**
   * Uninstalling removes the version and all its verses, and nothing else:
   * the other rows are untouched, the version's book rows remain, and every
   * row stays under its own key.
   */
  lemma UninstallSpec(t: Tables, id: string)
    requires Keyed(t.versions, VersionKey) && Keyed(t.books, BookKey) && Keyed(t.verses, VerseKey)
    ensures var u := Uninstall(t, id);
      && Keyed(u.versions, VersionKey) && Keyed(u.books, BookKey) && Keyed(u.verses, VerseKey)
      && id !in u.versions && (forall k | k in u.verses :: u.verses[k].version != id)
      && (forall k | k in t.versions && k != id :: k in u.versions && u.versions[k] == t.versions[k])
      && (forall k | k in t.verses && t.verses[k].version != id :: k in u.verses && u.verses[k] == t.verses[k])
      && u.books == t.books
  {
  }

  /**
   * Importing a version and then uninstalling it leaves the other versions'
   * rows as they were before the import, but the book rows of the import
   * stay behind.
   */
  lemma UninstallAfterImport(t: Tables, version: Version, verses: seq<Verse>, books: seq<Book>)
    requires ImportTables(t, version, verses, books).Some?
    requires forall i | 0 <= i < |verses| :: verses[i].version == version.id
    ensures var u := Uninstall(ImportTables(t, version, verses, books).value, version.id);
      && u.versions == t.versions - {version.id}
      && u.verses == VersesNotOf(t.verses, version.id)
      && forall i | 0 <= i < |books| :: books[i].pk in u.books && u.books[books[i].pk] == books[i]
  {
    ImportTablesSpec(t, version, verses, books);
    var w := ImportTables(t, version, verses, books).value;
    var u := Uninstall(w, version.id);
    forall k | k in VersesNotOf(t.verses, version.id) ensures k in u.verses && u.verses[k] == t.verses[k] {
    }
    forall k | k in u.verses ensures k in VersesNotOf(t.verses, version.id) {
      assert w.verses[k].version != version.id;
    }
    assert u.verses.Keys == VersesNotOf(t.verses, version.id).Keys;
  }

  /** Lines 46-56 on the store. */
  method UninstallVersion(store: ScriptureStore, versionId: string)
    modifies store
    ensures store.Snapshot() == Uninstall(old(store.Snapshot()), versionId)
  {
    store.versions := store.versions - {versionId};
    store.verses := VersesNotOf(store.verses, versionId);
  }

  // ---------------------------------------------------------------- the running import

  /** What `activeImport` shows after each report of `progress`. */
  function Shown(progress: seq<Progress>): (r: seq<Option<Progress>>)
    ensures |r| == |progress| && forall i | 0 <= i < |r| :: r[i] == Some(progress[i])
  {
    seq(|progress|, i requires 0 <= i < |progress| => Some(progress[i]))
  }

  /** The hook's state: the store it reads and writes, and the progress of the running import. */
  class ScriptureHook {
    const store: ScriptureStore
    var activeImport: Option<Progress>

    constructor (store: ScriptureStore)
      ensures this.store == store && activeImport == None
    {
      this.store := store;
      activeImport := None;
    }

    /** Each report becomes the shown progress in turn; then `activeImport` is cleared (the `finally` blocks). */
    method Show(progress: seq<Progress>) returns (shown: seq<Option<Progress>>)
      modifies this
      ensures activeImport == None
      ensures shown == Shown(progress) + [None]
    {
      shown := [];
      for i := 0 to |progress|
        invariant shown == Shown(progress[..i])
      {
        activeImport := Some(progress[i]);
        shown := shown + [activeImport];
      }
      assert progress[..|progress|] == progress;
      activeImport := None;
      shown := shown + [activeImport];
    }

    /**
     * Lines 12-24: every report is shown in turn, and whether the import
     * succeeds or throws, `activeImport` is `null` afterwards (`shown` is the
     * succession of values it takes).
     */
    method DownloadVersion(responseOk: bool, statusText: string, contentLength: Option<string>,
                           body: Option<seq<seq<Byte>>>, unzip: seq<Byte> -> Option<seq<(string, seq<Byte>)>>,
                           decode: seq<Byte> -> string, parseJson: string -> Option<JsonBible>,
                           parseXml: string -> Node, now: int)
      returns (r: Result<Normalised, ImportError>, progress: seq<Progress>, shown: seq<Option<Progress>>)
      modifies this, store
      ensures activeImport == None
      ensures shown == Shown(progress) + [None]
      ensures !responseOk ==> r == Failure(DownloadFailed(statusText)) && store.Snapshot() == old(store.Snapshot())
      ensures responseOk && body.None? ==> r == Failure(NoReader) && store.Snapshot() == old(store.Snapshot())
      ensures responseOk && body.Some? ==>
        (r, store.Snapshot()) == Process(old(store.Snapshot()), Flatten(body.value), unzip, decode, parseJson, parseXml, now)
    {
      r, progress := ImportBibleModule(store, responseOk, statusText, contentLength, body, unzip, decode, parseJson, parseXml, now);
      shown := Show(progress);
    }

    /**
     * Lines 26-44: the same for a file the user picked. Its name is passed
     * as an argument `processBibleBuffer` does not take, so the outcome does
     * not depend on it.
     */
    method ImportFile(buffer: seq<Byte>, fileName: string, unzip: seq<Byte> -> Option<seq<(string, seq<Byte>)>>,
                      decode: seq<Byte> -> string, parseJson: string -> Option<JsonBible>,
                      parseXml: string -> Node, now: int)
      returns (r: Result<Normalised, ImportError>, progress: seq<Progress>, shown: seq<Option<Progress>>)
      modifies this, store
      ensures activeImport == None
      ensures shown == Shown(progress) + [None]
      ensures (r, store.Snapshot()) == Process(old(store.Snapshot()), buffer, unzip, decode, parseJson, parseXml, now)
    {
      r, progress := ProcessBibleBuffer(store, buffer, unzip, decode, parseJson, parseXml, now);
      shown := Show(progress);
    }
  }
}
