/**
 * Importing a Bible module (src/features/scripture/lib/import-pipeline.ts):
 * the downloaded chunks are joined into one buffer; the buffer is a zip
 * holding a `.json` or `.xml` file, or is that file itself; the file is
 * normalised into a version row, book rows and verse rows; and these replace
 * the version's rows in the store in one transaction, the verses in batches
 * of 500.
 *
 * The foreign parts are parameters: the unzipped entries (`None` when the
 * buffer is not a zip), the text decoder, the parsed JSON value and the
 * parsed XML document.
 */
module ImportPipeline {
  import opened Wrappers
  import opened Text
  import opened ScriptureDb
  import opened Sequences

  newtype Byte = b: int | 0 <= b < 256

  datatype Phase = Downloading | Unzipping | Parsing | Importing
  datatype Progress = Progress(phase: Phase, percent: int)

  /** `Math.floor(a / b)` */
  function FloorDiv(a: int, b: int): int
    requires b != 0
  {
    if b > 0 then a / b else (-a) / (-b)
  }

  /** `Math.round((done / total) * 100)`, in exact arithmetic: half rounds up. */
  function Percent(done: int, total: int): int
    requires total != 0
  {
    FloorDiv(200 * done + total, 2 * total)
  }

  lemma SignOfProduct(b: int, z: int)
    requires b > 0 && b * z > 0
    ensures z > 0
  {
  }

  lemma DivAtMost(a: int, b: int, hi: int)
    requires b > 0 && a < b * hi
    ensures a / b < hi
  {
    var d := a / b;
    assert b * d <= a;
    assert b * (hi - d) == b * hi - b * d;
    SignOfProduct(b, hi - d);
  }

  lemma DivAtLeast(a: int, b: int, lo: int)
    requires b > 0 && b * lo <= a
    ensures lo <= a / b
  {
    var d := a / b;
    assert a < b * d + b;
    assert b * (d + 1 - lo) == b * d + b - b * lo;
    SignOfProduct(b, d + 1 - lo);
  }

  /** Progress stays within 0..100 and is 100 once all the work is done. */
  lemma PercentBounds(done: int, total: int)
    requires 0 <= done <= total && total > 0
    ensures 0 <= Percent(done, total) <= 100
    ensures done == total ==> Percent(done, total) == 100
  {
    var a, b := 200 * done + total, 2 * total;
    DivAtLeast(a, b, 0);
    DivAtMost(a, b, 101);
    if done == total {
      DivAtLeast(a, b, 100);
    }
  }

  /** Progress never goes down as the work done grows. */
  lemma PercentMonotonic(d1: int, d2: int, total: int)
    requires 0 <= d1 <= d2 && total > 0
    ensures Percent(d1, total) <= Percent(d2, total)
  {
    var b := 2 * total;
    var a1, a2 := 200 * d1 + total, 200 * d2 + total;
    assert b * (a1 / b) <= a1;
    DivAtLeast(a2, b, a1 / b);
  }

  // ---------------------------------------------------------------- chunks

  function Flatten<T>(parts: seq<seq<T>>): seq<T>
    decreases |parts|
  {
    if parts == [] then [] else Flatten(parts[..|parts| - 1]) + parts[|parts| - 1]
  }

  function TotalLength<T>(parts: seq<seq<T>>): nat
    decreases |parts|
  {
    if parts == [] then 0 else TotalLength(parts[..|parts| - 1]) + |parts[|parts| - 1]|
  }

  lemma {:induction false} FlattenLength<T>(parts: seq<seq<T>>)
    ensures |Flatten(parts)| == TotalLength(parts)
    decreases |parts|
  {
    if parts != [] {
      FlattenLength(parts[..|parts| - 1]);
    }
  }

  /**
   * Lines 18-19: the total is the `content-length` header read by `parseInt`,
   * 0 when the header is missing or empty; `None` stands for `NaN`.
   */
  function ContentTotal(header: Option<string>): Option<int> {
    if header.Some? && header.value != "" then ParseInt(header.value) else Some(0)
  }

  /**
   * Lines 25-41: the read loop collects the chunks and counts the bytes, then
   * the chunks are copied into one buffer, each at the offset where the
   * previous one ended. `total` is the parsed `content-length` (`None` for a
   * missing or non-numeric header).
   */
  method ReadAll(stream: seq<seq<Byte>>, total: Option<int>) returns (blob: array<Byte>, progress: seq<Progress>)
    ensures blob[..] == Flatten(stream)
    ensures blob.Length == TotalLength(stream)
    ensures |progress| == if total.Some? && total.value != 0 then |stream| else 0
    ensures forall i | 0 <= i < |progress| ::
              progress[i] == Progress(Downloading, Percent(TotalLength(stream[..i + 1]), total.value))
  {
    var chunks: seq<seq<Byte>> := [];
    var loaded := 0;
    progress := [];
    var i := 0;
    while i < |stream|
      invariant 0 <= i <= |stream|
      invariant chunks == stream[..i]
      invariant loaded == TotalLength(chunks)
      invariant |progress| == if total.Some? && total.value != 0 then i else 0
      invariant forall j | 0 <= j < |progress| ::
                  progress[j] == Progress(Downloading, Percent(TotalLength(stream[..j + 1]), total.value))
    {
      var value := stream[i];
      chunks := chunks + [value];
      loaded := loaded + |value|;
      assert chunks[..|chunks| - 1] == stream[..i];
      if total.Some? && total.value != 0 {
        progress := progress + [Progress(Downloading, Percent(loaded, total.value))];
      }
      i := i + 1;
    }
    assert chunks == stream;
    blob := Concatenate(chunks, loaded);
  }

  /** Lines 36-41: copy each chunk to the running offset. */
  method Concatenate(chunks: seq<seq<Byte>>, loaded: nat) returns (blob: array<Byte>)
    requires loaded == TotalLength(chunks)
    ensures blob.Length == loaded && blob[..] == Flatten(chunks)
  {
    blob := new Byte[loaded](_ => 0);
    var offset := 0;
    for i := 0 to |chunks|
      invariant offset == TotalLength(chunks[..i]) <= loaded
      invariant blob[..offset] == Flatten(chunks[..i])
    {
      var chunk := chunks[i];
      ChunkStep(chunks, i);
      PrefixLength(chunks, i + 1);
      ghost var before := blob[..offset];
      forall k | 0 <= k < |chunk| {
        blob[offset + k] := chunk[k];
      }
      assert blob[..offset] == before;
      assert blob[offset..offset + |chunk|] == chunk;
      assert blob[..offset + |chunk|] == before + chunk;
      offset := offset + |chunk|;
    }
    assert chunks[..|chunks|] == chunks;
    FlattenLength(chunks);
  }

  lemma ChunkStep<T>(parts: seq<seq<T>>, i: nat)
    requires i < |parts|
    ensures Flatten(parts[..i + 1]) == Flatten(parts[..i]) + parts[i]
    ensures TotalLength(parts[..i + 1]) == TotalLength(parts[..i]) + |parts[i]|
  {
    assert parts[..i + 1][..i] == parts[..i];
  }

  /** A prefix of the chunks is no longer than all of them. */
  lemma {:induction false} PrefixLength<T>(parts: seq<seq<T>>, n: nat)
    requires n <= |parts|
    ensures TotalLength(parts[..n]) <= TotalLength(parts)
    decreases |parts|
  {
    if n < |parts| {
      assert parts[..|parts| - 1][..n] == parts[..n];
      PrefixLength(parts[..|parts| - 1], n);
    } else {
      assert parts[..n] == parts;
    }
  }

  // ---------------------------------------------------------------- choosing the file

  predicate IsBibleFileName(name: string) { EndsWith(name, ".json") || EndsWith(name, ".xml") }

  /** The first entry, in the archive's order, whose name ends in `.json` or `.xml`. */
  function FirstBibleEntry(entries: seq<(string, seq<Byte>)>): (i: nat)
    ensures i <= |entries|
    ensures forall j | 0 <= j < i :: !IsBibleFileName(entries[j].0)
    ensures i < |entries| ==> IsBibleFileName(entries[i].0)
    decreases |entries|
  {
    if entries == [] then 0
    else if IsBibleFileName(entries[0].0) then 0
    else 1 + FirstBibleEntry(entries[1..])
  }

  datatype BibleFile = BibleFile(name: string, content: string)

  /**
   * Lines 51-70: the entry of the zip if there is one, otherwise the whole
   * buffer, named `bible.json` when its trimmed text starts with `{` and
   * `bible.xml` otherwise.
   */
  function ChooseFile(buffer: seq<Byte>, unzipped: Option<seq<(string, seq<Byte>)>>,
                      decode: seq<Byte> -> string): BibleFile
  {
    if unzipped.Some? && FirstBibleEntry(unzipped.value) < |unzipped.value| then
      var e := unzipped.value[FirstBibleEntry(unzipped.value)];
      BibleFile(e.0, decode(e.1))
    else
      var content := decode(buffer);
      BibleFile(if StartsWith(Trim(content), "{") then "bible.json" else "bible.xml", content)
  }

  /**
   * A buffer that is not a zip, or a zip without a Bible file, is read as the
   * file itself and never rejected; it is JSON exactly when its trimmed text
   * starts with `{`. Otherwise the file is the first Bible entry of the zip.
   */
  lemma ChooseFileSpec(buffer: seq<Byte>, unzipped: Option<seq<(string, seq<Byte>)>>, decode: seq<Byte> -> string)
    ensures var f := ChooseFile(buffer, unzipped, decode);
      if unzipped.None? || forall j | 0 <= j < |unzipped.value| :: !IsBibleFileName(unzipped.value[j].0) then
        f.content == decode(buffer) && (IsJsonFile(f) <==> StartsWith(Trim(f.content), "{"))
      else exists i | 0 <= i < |unzipped.value| ::
        && f == BibleFile(unzipped.value[i].0, decode(unzipped.value[i].1))
        && IsBibleFileName(unzipped.value[i].0)
        && forall j | 0 <= j < i :: !IsBibleFileName(unzipped.value[j].0)
  {
    if unzipped.Some? {
      var es := unzipped.value;
      var i := FirstBibleEntry(es);
      if i < |es| {
        assert IsBibleFileName(es[i].0);
        assert ChooseFile(buffer, unzipped, decode) == BibleFile(es[i].0, decode(es[i].1));
      } else {
        assert forall j | 0 <= j < |es| :: !IsBibleFileName(es[j].0);
      }
    }
  }

  /** Lines 73-77: a name ending in `.json` goes to the JSON importer, any other to the XML importer. */
  predicate IsJsonFile(f: BibleFile) { EndsWith(f.name, ".json") }

  // ---------------------------------------------------------------- JSON

  /** The fields of the file's `version` object that the importer reads or copies. */
  datatype JsonVersion = JsonVersion(id: Option<string>, name: Option<string>, code: Option<string>)

  /** A verse object of the file; `pk` and `version` are present only if the file has them. */
  datatype JsonVerse = JsonVerse(pk: Option<string>, version: Option<string>, bookId: string,
                                 bookName: Option<string>, chapter: int, verse: int, text: string)

  /** The parsed file: `version`, `verses` and `books`, each possibly missing. */
  datatype JsonBible = JsonBible(version: Option<JsonVersion>, verses: Option<seq<JsonVerse>>, books: Option<seq<Book>>)

  /** `s || fallback` on an optional string: the empty string is falsy. */
  function OrElse(s: Option<string>, fallback: string): (r: string)
    ensures s.Some? && s.value != "" ==> r == s.value
    ensures s.None? || s.value == "" ==> r == fallback
  {
    if s.Some? && s.value != "" then s.value else fallback
  }

  /** What `.replace(/[_-]/g, " ")` makes of the file name before its first dot. */
  function NameFromFile(fileName: string): string {
    UnderscoresToSpaces(Stem(fileName))
  }

  /** `name.toLowerCase().replace(/\s+/g, "-")` */
  function IdFromName(name: string): string {
    HyphenateSpaces(Lower(name))
  }

  function JsonVersionName(v: Option<JsonVersion>, fileName: string): string {
    OrElse(if v.Some? then v.value.name else None, NameFromFile(fileName))
  }

  /** Lines 87-94: the version row; the code is copied from the file, never derived. */
  function JsonVersionRow(v: Option<JsonVersion>, fileName: string, size: nat, now: int): (r: Version)
    ensures r.name == JsonVersionName(v, fileName)
    ensures r.code == if v.Some? then v.value.code else None
  {
    var name := JsonVersionName(v, fileName);
    var id := OrElse(if v.Some? then v.value.id else None, IdFromName(name));
    Version(id, name, if v.Some? then v.value.code else None, now, size)
  }

  function DefaultVersePk(id: string, bookId: string, chapter: int, verse: int): string {
    id + "|" + bookId + "|" + IntToString(chapter) + "|" + IntToString(verse)
  }

  /** Lines 96-100: `{ pk, version, ...v }`, so the verse's own `pk` and `version` win. */
  function JsonVerseRow(v: JsonVerse, id: string): Verse {
    Verse(v.pk.GetOr(DefaultVersePk(id, v.bookId, v.chapter, v.verse)), v.version.GetOr(id),
          v.bookId, v.bookName, v.chapter, v.verse, v.text)
  }

  datatype Normalised = Normalised(version: Version, verses: seq<Verse>, books: seq<Book>)

  /**
   * Why an import throws: the response is not ok, it has no body, the JSON
   * does not parse, it has no `verses` array, or the transaction aborts on a
   * key collision.
   */
  datatype ImportError = DownloadFailed(status: string) | NoReader | NotJson | MissingVerses | Aborted

  /**
   * Lines 80-104. `data` is what `JSON.parse` made of the text (`None` when it
   * throws); a file without a `verses` array fails on `data.verses.map`.
   */
  function ImportFromJson(content: string, data: Option<JsonBible>, fileName: string, now: int): Result<Normalised, ImportError> {
    if data.None? then Failure(NotJson)
    else if data.value.verses.None? then Failure(MissingVerses)
    else
      var version := JsonVersionRow(data.value.version, fileName, |content|, now);
      var src := data.value.verses.value;
      var verses := seq(|src|, i requires 0 <= i < |src| => JsonVerseRow(src[i], version.id));
      Success(Normalised(version, verses, data.value.books.GetOr([])))
  }

  /**
   * The name is the file's version name, else the file stem with `_` and `-`
   * as spaces; the id is the file's version id, else the lower-cased name with
   * each whitespace run as `-`; each verse keeps its place, and its key is
   * `id|bookId|chapter|verse` unless the file gives one.
   */
  lemma JsonNaming(content: string, data: JsonBible, fileName: string, now: int)
    requires data.verses.Some?
    ensures var r := ImportFromJson(content, Some(data), fileName, now);
      var v := data.version;
      && r.Success?
      && r.value.version.name == (if v.Some? && v.value.name.Some? && v.value.name.value != "" then v.value.name.value
                                   else UnderscoresToSpaces(Stem(fileName)))
      && r.value.version.id == (if v.Some? && v.value.id.Some? && v.value.id.value != "" then v.value.id.value
                                 else HyphenateSpaces(Lower(r.value.version.name)))
      && NoSpace(HyphenateSpaces(Lower(r.value.version.name)))
      && r.value.version.size == |content| && r.value.version.lastUpdated == now
      && |r.value.verses| == |data.verses.value|
      && forall i | 0 <= i < |r.value.verses| ::
           var src, row := data.verses.value[i], r.value.verses[i];
           && (src.pk.None? ==> row.pk == DefaultVersePk(r.value.version.id, src.bookId, src.chapter, src.verse))
           && (src.pk.Some? ==> row.pk == src.pk.value)
           && row.version == (if src.version.Some? then src.version.value else r.value.version.id)
           && row.bookId == src.bookId && row.chapter == src.chapter && row.verse == src.verse
           && row.text == src.text
  {
  }

  // ---------------------------------------------------------------- XML

  /** A node of the parsed XML document: an element with its attributes and children, or a text node. */
  datatype Node = Element(tag: string, attrs: map<string, string>, children: seq<Node>) | TextNode(text: string)

  /** `node.getElementsByTagName(tag)`: the elements named `tag` strictly below `n`, in document order. */
  function Descendants(n: Node, tag: string): (r: seq<Node>)
    ensures forall i | 0 <= i < |r| :: r[i].Element? && r[i].tag == tag
    decreases n, 1
  {
    if n.TextNode? then [] else DescendantsOf(n.children, tag)
  }

  function DescendantsOf(cs: seq<Node>, tag: string): (r: seq<Node>)
    ensures forall i | 0 <= i < |r| :: r[i].Element? && r[i].tag == tag
    decreases cs, 0
  {
    if cs == [] then []
    else (if cs[0].Element? && cs[0].tag == tag then [cs[0]] else []) + Descendants(cs[0], tag) + DescendantsOf(cs[1..], tag)
  }

  /** Every node strictly below `n`, in document order: each node before the nodes below it. */
  function Below(n: Node): seq<Node>
    decreases n, 1
  {
    if n.TextNode? then [] else BelowAll(n.children)
  }

  function BelowAll(cs: seq<Node>): seq<Node>
    decreases cs, 0
  {
    if cs == [] then [] else [cs[0]] + Below(cs[0]) + BelowAll(cs[1..])
  }

  function HasTag(tag: string): Node -> bool {
    (x: Node) => x.Element? && x.tag == tag
  }

  /** The search below a node finds every element below it named `tag`, in document order, and nothing else. */
  lemma {:induction false} DescendantsInOrder(n: Node, tag: string)
    ensures Descendants(n, tag) == Filter(Below(n), HasTag(tag))
    decreases n, 1
  {
    if n.Element? {
      DescendantsOfInOrder(n.children, tag);
    }
  }

  lemma {:induction false} DescendantsOfInOrder(cs: seq<Node>, tag: string)
    ensures DescendantsOf(cs, tag) == Filter(BelowAll(cs), HasTag(tag))
    decreases cs, 0
  {
    if cs != [] {
      var p := HasTag(tag);
      var head, below, rest := [cs[0]], Below(cs[0]), BelowAll(cs[1..]);
      DescendantsInOrder(cs[0], tag);
      DescendantsOfInOrder(cs[1..], tag);
      FilterSingle(cs[0], p);
      FilterConcat(head, below, p);
      FilterConcat(head + below, rest, p);
      assert BelowAll(cs) == head + below + rest;
      assert Filter(head + below + rest, p) == Filter(head, p) + Filter(below, p) + Filter(rest, p);
    }
  }

  /** On the document the search also looks at the root: every element named `tag`, in document order. */
  lemma DocumentElementsInOrder(root: Node, tag: string)
    ensures DocumentElements(root, tag) == Filter([root] + Below(root), HasTag(tag))
  {
    DescendantsInOrder(root, tag);
    FilterSingle(root, HasTag(tag));
    FilterConcat([root], Below(root), HasTag(tag));
  }

  /** `xmlDoc.getElementsByTagName(tag)`: on the document the root element itself counts too. */
  function DocumentElements(root: Node, tag: string): (r: seq<Node>)
    ensures forall i | 0 <= i < |r| :: r[i].Element? && r[i].tag == tag
  {
    (if root.Element? && root.tag == tag then [root] else []) + Descendants(root, tag)
  }

  /** Lines 150-152, 169-171, 179-181: the upper-case elements if there are any, else the lower-case ones. */
  function Dialect(upper: seq<Node>, lower: seq<Node>): seq<Node> {
    if |upper| > 0 then upper else lower
  }

  /** `getAttribute(name)`: `None` (null) when the attribute is missing. */
  function Attr(n: Node, name: string): Option<string> {
    if n.Element? && name in n.attrs then Some(n.attrs[name]) else None
  }

  /** Whether `getAttribute(name)` is truthy: present and not empty. */
  predicate HasAttr(n: Node, name: string) {
    Attr(n, name).Some? && Attr(n, name).value != ""
  }

  /** The index of the first of `names` that `n` has a non-empty attribute for. */
  function FirstPresent(n: Node, names: seq<string>): (i: nat)
    ensures i <= |names|
    ensures forall j | 0 <= j < i :: !HasAttr(n, names[j])
    ensures i < |names| ==> HasAttr(n, names[i])
    decreases |names|
  {
    if names == [] then 0
    else if HasAttr(n, names[0]) then 0
    else 1 + FirstPresent(n, names[1..])
  }

  /** `n.getAttribute(a) || n.getAttribute(b) || ...`; `None` when every one is missing or empty. */
  function FirstAttr(n: Node, names: seq<string>): (r: Option<string>)
    ensures r.None? <==> forall j | 0 <= j < |names| :: !HasAttr(n, names[j])
    ensures r.Some? ==> r.value != "" && exists j | 0 <= j < |names| :: Attr(n, names[j]) == r
  {
    var i := FirstPresent(n, names);
    if i < |names| then Attr(n, names[i]) else None
  }

  /** `textContent`: the text of every text node below `n`, in document order. */
  function TextContent(n: Node): string
    decreases n, 1
  {
    if n.TextNode? then n.text else TextContentOf(n.children)
  }

  function TextContentOf(cs: seq<Node>): string
    decreases cs, 0
  {
    if cs == [] then "" else TextContent(cs[0]) + TextContentOf(cs[1..])
  }

  /** `parseInt(n.getAttribute("number") || n.getAttribute("n") || "0", 10)`; `None` stands for `NaN`. */
  function NumberAttr(n: Node): Option<int> {
    ParseInt(FirstAttr(n, ["number", "n"]).GetOr("0"))
  }

  /** The numeric field of a row; a `NaN` is stored as 0. */
  function Stored(n: Option<int>): int {
    n.GetOr(0)
  }

  /** Lines 116-121: the root's `name`, `title` or `n`, else the file stem with `_` and `-` as spaces. */
  function XmlVersionName(root: Node, fileName: string): string {
    FirstAttr(root, ["name", "title", "n"]).GetOr(NameFromFile(fileName))
  }

  /**
   * Lines 126-141: the root's `abbreviation`, `shortName` or `code`, else the
   * file stem when it has 2 to 5 characters, else the first three characters
   * of the name; upper-cased.
   */
  function XmlVersionCode(root: Node, fileName: string, name: string): string {
    var stem := Stem(fileName);
    var c := FirstAttr(root, ["abbreviation", "shortName", "code"]);
    Upper(if c.Some? then c.value else if 2 <= |stem| <= 5 then Upper(stem) else Take(Upper(name), 3))
  }

  function XmlVersionRow(root: Node, fileName: string, size: nat, now: int): Version {
    var name := XmlVersionName(root, fileName);
    Version(IdFromName(name), name, Some(XmlVersionCode(root, fileName, name)), now, size)
  }

  function BookNodes(root: Node): seq<Node> {
    Dialect(DocumentElements(root, "BOOK"), DocumentElements(root, "b"))
  }

  function ChapterNodes(book: Node): seq<Node> {
    Dialect(Descendants(book, "CHAPTER"), Descendants(book, "c"))
  }

  function VerseNodes(chapter: Node): seq<Node> {
    Dialect(Descendants(chapter, "VERSE"), Descendants(chapter, "v"))
  }

  /** Lines 157-159 */
  function BookName(book: Node): string {
    FirstAttr(book, ["name", "title", "n"]).GetOr("")
  }

  /** Lines 161-162 */
  function BookAbbreviation(book: Node): string {
    FirstAttr(book, ["abbreviation", "shortName"]).GetOr("")
  }

  /** Line 164: the lower-cased name without whitespace, cut to 8 characters. */
  function BookId(name: string): (r: string)
    ensures |r| <= 8 && NoSpace(r)
    ensures r == Take(RemoveSpaces(Lower(name)), 8)
  {
    Take(RemoveSpaces(Lower(name)), 8)
  }

  /** Lines 188-196: the row of one verse element. */
  function XmlVerseRow(id: string, bookId: string, bookName: string, chapter: Option<int>, v: Node): Verse {
    var verse := NumberAttr(v);
    Verse(id + "|" + bookId + "|" + NumberText(chapter) + "|" + NumberText(verse), id, bookId,
          Some(bookName), Stored(chapter), Stored(verse), TextContent(v))
  }

  /** Lines 183-197: the rows of one chapter's verses, in order. */
  function ChapterRows(id: string, bookId: string, bookName: string, chapter: Node): (r: seq<Verse>)
    ensures |r| == |VerseNodes(chapter)|
    ensures forall k | 0 <= k < |r| :: r[k] == XmlVerseRow(id, bookId, bookName, NumberAttr(chapter), VerseNodes(chapter)[k])
  {
    var vs := VerseNodes(chapter);
    seq(|vs|, k requires 0 <= k < |vs| => XmlVerseRow(id, bookId, bookName, NumberAttr(chapter), vs[k]))
  }

  /** Lines 173-198: the rows of the chapters, one chapter after the other. */
  function ChaptersRows(id: string, bookId: string, bookName: string, chapters: seq<Node>): seq<Verse>
    decreases |chapters|
  {
    if chapters == [] then []
    else ChaptersRows(id, bookId, bookName, chapters[..|chapters| - 1]) + ChapterRows(id, bookId, bookName, chapters[|chapters| - 1])
  }

  /** The chapter numbers of the chapter elements, in order. */
  function ChapterNumbers(chapters: seq<Node>): (r: seq<Option<int>>)
    ensures |r| == |chapters| && forall j | 0 <= j < |chapters| :: r[j] == NumberAttr(chapters[j])
  {
    seq(|chapters|, j requires 0 <= j < |chapters| => NumberAttr(chapters[j]))
  }

  /** Lines 166, 176: the running maximum from 0, which a `NaN` never exceeds. */
  function RunningMax(ns: seq<Option<int>>): int
    decreases |ns|
  {
    if ns == [] then 0
    else
      var m := RunningMax(ns[..|ns| - 1]);
      var n := ns[|ns| - 1];
      if n.Some? && n.value > m then n.value else m
  }

  function MaxChapter(chapters: seq<Node>): int {
    RunningMax(ChapterNumbers(chapters))
  }

  /** The verse rows of one book element. */
  function BookVerseRows(id: string, book: Node): seq<Verse> {
    var name := BookName(book);
    ChaptersRows(id, BookId(name), name, ChapterNodes(book))
  }

  /** Lines 154-210: the verse rows of the books, one book after the other. */
  function BooksRows(id: string, books: seq<Node>): seq<Verse>
    decreases |books|
  {
    if books == [] then [] else BooksRows(id, books[..|books| - 1]) + BookVerseRows(id, books[|books| - 1])
  }

  /** Lines 200-207: the row of one book element. */
  function XmlBookRow(id: string, book: Node): Book {
    var name := BookName(book);
    var bookId := BookId(name);
    Book(id + "|" + bookId, id, bookId, name, Some(BookAbbreviation(book)), MaxChapter(ChapterNodes(book)))
  }

  function XmlBookRows(id: string, books: seq<Node>): (r: seq<Book>)
    ensures |r| == |books|
    decreases |books|
  {
    if books == [] then [] else XmlBookRows(id, books[..|books| - 1]) + [XmlBookRow(id, books[|books| - 1])]
  }

  /** What `importFromXml` makes of the document `doc` that `DOMParser` produced from `content`. */
  function XmlImport(content: string, doc: Node, fileName: string, now: int): Normalised {
    var version := XmlVersionRow(doc, fileName, |content|, now);
    var books := BookNodes(doc);
    Normalised(version, BooksRows(version.id, books), XmlBookRows(version.id, books))
  }

  /** Lines 111 and 209: 0 at the start, then one report per book. */
  function XmlProgress(doc: Node): seq<Progress> {
    [Progress(Parsing, 0)] + StepProgress(Parsing, |BookNodes(doc)|)
  }

  /** Lines 106-213: the walk over books, chapters and verses. */
  method ImportFromXml(content: string, doc: Node, fileName: string, now: int) returns (r: Normalised, progress: seq<Progress>)
    ensures r == XmlImport(content, doc, fileName, now)
    ensures progress == XmlProgress(doc)
  {
    progress := [Progress(Parsing, 0)];
    var version := XmlVersionRow(doc, fileName, |content|, now);
    var bibleId := version.id;
    var verses: seq<Verse> := [];
    var books: seq<Book> := [];
    var bookNodes := BookNodes(doc);
    assert progress == PartialXmlProgress(|bookNodes|, 0);
    for i := 0 to |bookNodes|
      invariant verses == BooksRows(bibleId, bookNodes[..i])
      invariant books == XmlBookRows(bibleId, bookNodes[..i])
      invariant progress == PartialXmlProgress(|bookNodes|, i)
    {
      var rows, book := ReadBook(bibleId, bookNodes[i]);
      verses := verses + rows;
      books := books + [book];
      progress := progress + [Progress(Parsing, Percent(i + 1, |bookNodes|))];
      BooksRowsAppend(bibleId, bookNodes, i);
      XmlBookRowsAppend(bibleId, bookNodes, i);
      PartialXmlProgressAppend(|bookNodes|, i);
    }
    assert bookNodes[..|bookNodes|] == bookNodes;
    PartialXmlProgressAll(|bookNodes|);
    r := Normalised(version, verses, books);
    assert XmlImport(content, doc, fileName, now) == Normalised(version, BooksRows(bibleId, bookNodes), XmlBookRows(bibleId, bookNodes));
  }

  lemma BooksRowsAppend(id: string, books: seq<Node>, i: nat)
    requires i < |books|
    ensures BooksRows(id, books[..i + 1]) == BooksRows(id, books[..i]) + BookVerseRows(id, books[i])
  {
    assert books[..i + 1][..i] == books[..i];
  }

  lemma XmlBookRowsAppend(id: string, books: seq<Node>, i: nat)
    requires i < |books|
    ensures XmlBookRows(id, books[..i + 1]) == XmlBookRows(id, books[..i]) + [XmlBookRow(id, books[i])]
  {
    assert books[..i + 1][..i] == books[..i];
  }

  /** The reports of the first `i` of `n` books. */
  function PartialXmlProgress(n: nat, i: nat): seq<Progress>
    requires i <= n
  {
    [Progress(Parsing, 0)] + StepProgress(Parsing, n)[..i]
  }

  lemma PartialXmlProgressAppend(n: nat, i: nat)
    requires i < n
    ensures PartialXmlProgress(n, i + 1) == PartialXmlProgress(n, i) + [Progress(Parsing, Percent(i + 1, n))]
  {
  }

  lemma PartialXmlProgressAll(n: nat)
    ensures PartialXmlProgress(n, n) == [Progress(Parsing, 0)] + StepProgress(Parsing, n)
  {
    assert StepProgress(Parsing, n)[..n] == StepProgress(Parsing, n);
  }

  lemma ChaptersAppend(id: string, bookId: string, bookName: string, chapters: seq<Node>, j: nat)
    requires j < |chapters|
    ensures ChaptersRows(id, bookId, bookName, chapters[..j + 1])
         == ChaptersRows(id, bookId, bookName, chapters[..j]) + ChapterRows(id, bookId, bookName, chapters[j])
    ensures var n := NumberAttr(chapters[j]);
      MaxChapter(chapters[..j + 1]) == if n.Some? && n.value > MaxChapter(chapters[..j]) then n.value else MaxChapter(chapters[..j])
  {
    assert chapters[..j + 1][..j] == chapters[..j];
    assert ChapterNumbers(chapters[..j + 1])[..j] == ChapterNumbers(chapters[..j]);
  }

  /** Lines 155-207: one book element, its chapters and their verses. */
  method ReadBook(bibleId: string, bookNode: Node) returns (rows: seq<Verse>, book: Book)
    ensures rows == BookVerseRows(bibleId, bookNode)
    ensures book == XmlBookRow(bibleId, bookNode)
  {
    var bookName := BookName(bookNode);
    var bookAbbr := BookAbbreviation(bookNode);
    var bookId := BookId(bookName);
    var maxChapter := 0;
    var chapterNodes := ChapterNodes(bookNode);
    rows := [];
    for j := 0 to |chapterNodes|
      invariant rows == ChaptersRows(bibleId, bookId, bookName, chapterNodes[..j])
      invariant maxChapter == MaxChapter(chapterNodes[..j])
    {
      var chapterNode := chapterNodes[j];
      var chapterNum := NumberAttr(chapterNode);
      if chapterNum.Some? && chapterNum.value > maxChapter {
        maxChapter := chapterNum.value;
      }
      var chapterRows := ReadChapter(bibleId, bookId, bookName, chapterNode);
      rows := rows + chapterRows;
      ChaptersAppend(bibleId, bookId, bookName, chapterNodes, j);
    }
    assert chapterNodes[..|chapterNodes|] == chapterNodes;
    book := Book(bibleId + "|" + bookId, bibleId, bookId, bookName, Some(bookAbbr), maxChapter);
  }

  /** Lines 179-197: the verses of one chapter element. */
  method ReadChapter(bibleId: string, bookId: string, bookName: string, chapterNode: Node) returns (rows: seq<Verse>)
    ensures rows == ChapterRows(bibleId, bookId, bookName, chapterNode)
  {
    var chapterNum := NumberAttr(chapterNode);
    var verseNodes := VerseNodes(chapterNode);
    rows := [];
    for k := 0 to |verseNodes|
      invariant rows == ChapterRows(bibleId, bookId, bookName, chapterNode)[..k]
    {
      var verseNode := verseNodes[k];
      var verseNum := NumberAttr(verseNode);
      var text := TextContent(verseNode);
      rows := rows + [Verse(bibleId + "|" + bookId + "|" + NumberText(chapterNum) + "|" + NumberText(verseNum),
                            bibleId, bookId, Some(bookName), Stored(chapterNum), Stored(verseNum), text)];
    }
  }

  /** The running maximum is the largest number, or 0 when none is above 0. */
  lemma {:induction false} RunningMaxSpec(ns: seq<Option<int>>)
    ensures RunningMax(ns) >= 0
    ensures forall j | 0 <= j < |ns| && ns[j].Some? :: ns[j].value <= RunningMax(ns)
    ensures RunningMax(ns) == 0 || exists j | 0 <= j < |ns| :: ns[j] == Some(RunningMax(ns))
    decreases |ns|
  {
    if ns != [] {
      var init := ns[..|ns| - 1];
      RunningMaxSpec(init);
      assert forall j | 0 <= j < |init| :: init[j] == ns[j];
    }
  }

  /**
   * The chapter count of a book is the largest chapter number it holds, or 0
   * when it has no chapter numbered above 0.
   */
  lemma MaxChapterSpec(chapters: seq<Node>)
    ensures MaxChapter(chapters) >= 0
    ensures forall j | 0 <= j < |chapters| && NumberAttr(chapters[j]).Some? :: NumberAttr(chapters[j]).value <= MaxChapter(chapters)
    ensures MaxChapter(chapters) == 0 || exists j | 0 <= j < |chapters| :: NumberAttr(chapters[j]) == Some(MaxChapter(chapters))
  {
    RunningMaxSpec(ChapterNumbers(chapters));
  }

  /**
   * The version row of an XML file: its name is a non-empty `name`, `title` or
   * `n` attribute of the root, else the one made from the file name; its id
   * is the lower-cased name with each whitespace run as `-`; its code is
   * given and upper-case, the root's own code when it has one, else the file
   * stem when that has 2 to 5 characters, else at most the first three
   * characters of the upper-cased name.
   */
  lemma XmlVersionFacts(root: Node, fileName: string, size: nat, now: int)
    ensures var v := XmlVersionRow(root, fileName, size, now);
      var names, codes, stem := ["name", "title", "n"], ["abbreviation", "shortName", "code"], Stem(fileName);
      && ((forall j | 0 <= j < 3 :: !HasAttr(root, names[j])) ==> v.name == NameFromFile(fileName))
      && ((exists j | 0 <= j < 3 :: HasAttr(root, names[j])) ==>
            v.name != "" && exists j | 0 <= j < 3 :: Attr(root, names[j]) == Some(v.name))
      && v.id == HyphenateSpaces(Lower(v.name)) && NoSpace(v.id)
      && v.code.Some? && (forall i | 0 <= i < |v.code.value| :: !('a' <= v.code.value[i] <= 'z'))
      && ((exists j | 0 <= j < 3 :: HasAttr(root, codes[j])) ==>
            exists j | 0 <= j < 3 :: Attr(root, codes[j]).Some? && v.code.value == Upper(Attr(root, codes[j]).value))
      && ((forall j | 0 <= j < 3 :: !HasAttr(root, codes[j])) && 2 <= |stem| <= 5 ==> v.code.value == Upper(stem))
      && ((forall j | 0 <= j < 3 :: !HasAttr(root, codes[j])) && !(2 <= |stem| <= 5) ==>
            |v.code.value| <= 3 && StartsWith(Upper(v.name), v.code.value))
    ensures XmlVersionRow(root, fileName, size, now).size == size && XmlVersionRow(root, fileName, size, now).lastUpdated == now
  {
    var name := XmlVersionName(root, fileName);
    var stem := Stem(fileName);
    var c := FirstAttr(root, ["abbreviation", "shortName", "code"]);
    var raw := if c.Some? then c.value else if 2 <= |stem| <= 5 then Upper(stem) else Take(Upper(name), 3);
    UpperTwice(raw);
    UpperTwice(stem);
    UpperTwice(name);
    if c.None? && !(2 <= |stem| <= 5) {
      assert Upper(raw) == raw;
      StartsWithConcat(raw, Upper(name)[|raw|..]);
      assert Upper(name) == raw + Upper(name)[|raw|..];
    }
  }

  /** A verse row the XML importer writes for version `id`. */
  predicate XmlRow(r: Verse, id: string) {
    && r.version == id && r.bookName.Some? && |r.bookId| <= 8 && NoSpace(r.bookId)
    && StartsWith(r.pk, id + "|" + r.bookId + "|")
  }

  /** Lines 188-196: the key is `id|bookId|chapter|verse`, the numbers printed as `parseInt` left them. */
  lemma XmlVerseRowFacts(id: string, bookId: string, bookName: string, chapter: Option<int>, v: Node)
    requires |bookId| <= 8 && NoSpace(bookId)
    ensures var r := XmlVerseRow(id, bookId, bookName, chapter, v);
      && XmlRow(r, id) && r.bookId == bookId && r.bookName == Some(bookName)
      && r.text == TextContent(v)
      && (chapter.Some? && NumberAttr(v).Some? ==> r.pk == DefaultVersePk(id, bookId, r.chapter, r.verse))
  {
    var r := XmlVerseRow(id, bookId, bookName, chapter, v);
    var p := id + "|" + bookId + "|";
    var q := NumberText(chapter) + "|" + NumberText(NumberAttr(v));
    assert r.pk == p + q;
    StartsWithConcat(p, q);
  }

  /** Every row of a run of chapters is an XML row of the book. */
  lemma {:induction false} ChaptersRowsFacts(id: string, bookId: string, bookName: string, chapters: seq<Node>)
    requires |bookId| <= 8 && NoSpace(bookId)
    ensures forall r | r in ChaptersRows(id, bookId, bookName, chapters) ::
              XmlRow(r, id) && r.bookId == bookId && r.bookName == Some(bookName)
    decreases |chapters|
  {
    if chapters != [] {
      var c := chapters[|chapters| - 1];
      ChaptersRowsFacts(id, bookId, bookName, chapters[..|chapters| - 1]);
      forall k | 0 <= k < |VerseNodes(c)| {
        XmlVerseRowFacts(id, bookId, bookName, NumberAttr(c), VerseNodes(c)[k]);
      }
    }
  }

  /**
   * Every verse row of an XML file is an XML row of the version, and its book
   * has a book row: the two tables join on the book id.
   */
  lemma {:induction false} BooksRowsFacts(id: string, books: seq<Node>)
    ensures forall r | r in BooksRows(id, books) ::
              XmlRow(r, id) && exists b | b in XmlBookRows(id, books) :: b.id == r.bookId && b.name == r.bookName.value
    decreases |books|
  {
    if books != [] {
      var init, last := books[..|books| - 1], books[|books| - 1];
      BooksRowsFacts(id, init);
      var row := XmlBookRow(id, last);
      ChaptersRowsFacts(id, row.id, row.name, ChapterNodes(last));
      assert XmlBookRows(id, books) == XmlBookRows(id, init) + [row];
    }
  }

  /**
   * Lines 200-207: each book row is keyed `id|bookId`, its id is at most
   * 8 characters without whitespace, and its chapter count is at least 0.
   */
  lemma {:induction false} XmlBookRowsFacts(id: string, books: seq<Node>)
    ensures forall b | b in XmlBookRows(id, books) ::
              && b.version == id && b.pk == id + "|" + b.id && |b.id| <= 8 && NoSpace(b.id)
              && b.abbreviation.Some? && b.chapters >= 0
    decreases |books|
  {
    if books != [] {
      XmlBookRowsFacts(id, books[..|books| - 1]);
      MaxChapterSpec(ChapterNodes(books[|books| - 1]));
    }
  }

  /** The parsing reports start at 0, stay within 0..100, never go down, and end at 100 when there are books. */
  lemma XmlProgressSpec(doc: Node)
    ensures var r := XmlProgress(doc);
      && r[0] == Progress(Parsing, 0)
      && (forall i | 0 <= i < |r| :: r[i].phase == Parsing && 0 <= r[i].percent <= 100)
      && (forall i, j | 0 <= i <= j < |r| :: r[i].percent <= r[j].percent)
      && (|r| > 1 ==> r[|r| - 1].percent == 100)
  {
    StepProgressSpec(Parsing, |BookNodes(doc)|);
  }

  // ---------------------------------------------------------------- performBatchImport

  const BatchSize: nat := 500

  /** `Math.ceil(n / 500)` */
  function BatchCount(n: nat): nat {
    (n + BatchSize - 1) / BatchSize
  }

  /** How many of `n` verses the first `i` batches hold. */
  function Covered(n: nat, i: nat): (c: nat)
    ensures c <= n
  {
    if i * BatchSize < n then i * BatchSize else n
  }

  function BatchEnd(n: nat, i: nat): nat {
    Covered(n, i + 1)
  }

  /** `verses.slice(i * 500, (i + 1) * 500)` */
  function Batch<T>(s: seq<T>, i: nat): seq<T>
    requires i < BatchCount(|s|)
  {
    s[i * BatchSize..BatchEnd(|s|, i)]
  }

  /** The first `i` batches. */
  function Batches<T>(s: seq<T>, i: nat): (bs: seq<seq<T>>)
    requires i <= BatchCount(|s|)
    ensures |bs| == i && forall j | 0 <= j < i :: bs[j] == Batch(s, j)
  {
    seq(i, j requires 0 <= j < i => Batch(s, j))
  }

  /** The batches are non-empty, hold at most 500 each, and the first `i` of them make up a prefix. */
  lemma {:induction false} BatchesCover<T>(s: seq<T>, i: nat)
    requires i <= BatchCount(|s|)
    ensures forall j | 0 <= j < i :: 0 < |Batch(s, j)| <= BatchSize
    ensures Flatten(Batches(s, i)) == s[..Covered(|s|, i)]
    decreases i
  {
    if i > 0 {
      BatchesCover(s, i - 1);
      var bs := Batches(s, i);
      assert bs[..i - 1] == Batches(s, i - 1);
      assert (i - 1) * BatchSize < |s|;
    }
  }

  /** All the batches together are the verse list, in order. */
  lemma AllBatches<T>(s: seq<T>)
    ensures Flatten(Batches(s, BatchCount(|s|))) == s
  {
    BatchesCover(s, BatchCount(|s|));
    CoveredAll(|s|);
    assert s[..|s|] == s;
  }

  /** The three tables after the transaction, or `None` when it aborts. */
  function ImportTables(t: Tables, version: Version, verses: seq<Verse>, books: seq<Book>): Option<Tables> {
    var bs := BooksNotOf(t.books, version.id);
    var ws := VersesNotOf(t.verses, version.id);
    var bs' := if |books| > 0 then AddAll(bs, books, BookKey) else Some(bs);
    var ws' := AddAll(ws, verses, VerseKey);
    if bs'.Some? && ws'.Some? then Some(Tables(t.versions[version.id := version], bs'.value, ws'.value)) else None
  }

  /**
   * The transaction puts the version row, drops the version's books and
   * verses, and adds the new ones. It commits exactly when the new keys are
   * distinct and clash with no row of another version; then the version's
   * verses are exactly the new ones (when they name the version), and the rows
   * of other versions are untouched.
   */
  lemma ImportTablesSpec(t: Tables, version: Version, verses: seq<Verse>, books: seq<Book>)
    ensures var r := ImportTables(t, version, verses, books);
      var id := version.id;
      && (r.Some? <==>
            && DistinctKeys(books, BookKey) && DistinctKeys(verses, VerseKey)
            && (forall i | 0 <= i < |books| :: !(books[i].pk in t.books && t.books[books[i].pk].version != id))
            && (forall i | 0 <= i < |verses| :: !(verses[i].pk in t.verses && t.verses[verses[i].pk].version != id)))
      && (r.Some? ==>
            && r.value.versions == t.versions[id := version]
            && (forall k | k in t.books && t.books[k].version != id :: k in r.value.books && r.value.books[k] == t.books[k])
            && (forall k | k in t.verses && t.verses[k].version != id :: k in r.value.verses && r.value.verses[k] == t.verses[k])
            && (forall i | 0 <= i < |books| :: books[i].pk in r.value.books && r.value.books[books[i].pk] == books[i])
            && (forall i | 0 <= i < |verses| :: verses[i].pk in r.value.verses && r.value.verses[verses[i].pk] == verses[i])
            && r.value.books.Keys == BooksNotOf(t.books, id).Keys + KeySet(books, BookKey)
            && r.value.verses.Keys == VersesNotOf(t.verses, id).Keys + KeySet(verses, VerseKey))
  {
    var bs := BooksNotOf(t.books, version.id);
    var ws := VersesNotOf(t.verses, version.id);
    AddAllSpec(bs, books, BookKey);
    AddAllSpec(ws, verses, VerseKey);
    if |books| == 0 {
      assert KeySet(books, BookKey) == {};
    }
  }

  /** With every new verse naming the version, its verses afterwards are exactly the new ones. */
  lemma VersionVersesExactly(t: Tables, version: Version, verses: seq<Verse>, books: seq<Book>)
    requires ImportTables(t, version, verses, books).Some?
    requires forall i | 0 <= i < |verses| :: verses[i].version == version.id
    ensures var w := ImportTables(t, version, verses, books).value.verses;
      forall k | k in w :: w[k].version == version.id <==> k in KeySet(verses, VerseKey)
  {
    ImportTablesSpec(t, version, verses, books);
    var w := ImportTables(t, version, verses, books).value.verses;
    forall k | k in w ensures w[k].version == version.id <==> k in KeySet(verses, VerseKey) {
      if k in KeySet(verses, VerseKey) {
        var i :| 0 <= i < |verses| && verses[i].pk == k;
      }
    }
  }

  /** `bulkAdd` of two lists in turn is `bulkAdd` of both. */
  lemma {:induction false} AddAllConcat<R>(m: map<string, R>, a: seq<R>, b: seq<R>, key: R -> string)
    ensures AddAll(m, a + b, key) == if AddAll(m, a, key).None? then None else AddAll(AddAll(m, a, key).value, b, key)
    decreases |b|
  {
    if b == [] {
      assert a + b == a;
    } else {
      var init := b[..|b| - 1];
      assert (a + b)[..|a + b| - 1] == a + init;
      assert (a + b)[|a + b| - 1] == b[|b| - 1];
      AddAllConcat(m, a, init, key);
    }
  }

  /** One progress report after each of `n` steps: `Math.round(((i + 1) / n) * 100)`. */
  function StepProgress(phase: Phase, n: nat): (r: seq<Progress>)
    ensures |r| == n
  {
    seq(n, i requires 0 <= i < n => Progress(phase, Percent(i + 1, n)))
  }

  lemma ProgressStep(phase: Phase, n: nat, i: nat)
    requires i < n
    ensures StepProgress(phase, n)[..i + 1] == StepProgress(phase, n)[..i] + [Progress(phase, Percent(i + 1, n))]
  {
  }

  /** Each step's progress is within 0..100, no smaller than the one before, and the last is 100. */
  lemma StepProgressSpec(phase: Phase, n: nat)
    ensures var r := StepProgress(phase, n);
      && (forall i | 0 <= i < |r| :: r[i].phase == phase && 0 <= r[i].percent <= 100)
      && (forall i, j | 0 <= i <= j < |r| :: r[i].percent <= r[j].percent)
      && (|r| > 0 ==> r[|r| - 1].percent == 100)
  {
    var r := StepProgress(phase, n);
    forall i | 0 <= i < |r| ensures 0 <= r[i].percent <= 100 {
      PercentBounds(i + 1, |r|);
    }
    forall i, j | 0 <= i <= j < |r| ensures r[i].percent <= r[j].percent {
      PercentMonotonic(i + 1, j + 1, |r|);
    }
    if |r| > 0 {
      PercentBounds(|r|, |r|);
    }
  }

  /** Lines 236-239: one report per batch. */
  function ImportProgress(n: nat): (r: seq<Progress>)
    ensures |r| == BatchCount(n)
  {
    StepProgress(Importing, BatchCount(n))
  }

  /**
   * Lines 233-240: the batch loop, adding batch after batch to the verse
   * table `ws0` and reporting progress after each; `None` as soon as a batch
   * fails.
   */
  method AddBatches(ws0: map<string, Verse>, verses: seq<Verse>) returns (r: Option<map<string, Verse>>, progress: seq<Progress>)
    ensures r == AddAll(ws0, verses, VerseKey)
    ensures r.Some? ==> progress == ImportProgress(|verses|)
  {
    var total := BatchCount(|verses|);
    var ws := ws0;
    progress := [];
    for i := 0 to total
      invariant AddAll(ws0, verses[..Covered(|verses|, i)], VerseKey) == Some(ws)
      invariant progress == ImportProgress(|verses|)[..i]
    {
      var batch := Batch(verses, i);
      var done := verses[..Covered(|verses|, i)];
      assert verses[..BatchEnd(|verses|, i)] == done + batch;
      AddAllConcat(ws0, done, batch, VerseKey);
      var added := AddAll(ws, batch, VerseKey);
      if added.None? {
        var upTo := verses[..BatchEnd(|verses|, i)];
        assert verses == upTo + verses[BatchEnd(|verses|, i)..];
        AddAllConcat(ws0, upTo, verses[BatchEnd(|verses|, i)..], VerseKey);
        return None, progress;
      }
      ws := added.value;
      ProgressStep(Importing, total, i);
      progress := progress + [Progress(Importing, Percent(i + 1, total))];
    }
    CoveredAll(|verses|);
    assert verses[..Covered(|verses|, total)] == verses;
    r := Some(ws);
  }

  lemma CoveredAll(n: nat)
    ensures Covered(n, BatchCount(n)) == n
  {
    assert n + 499 == 500 * ((n + 499) / 500) + (n + 499) % 500;
  }

  /**
   * Lines 215-242: one transaction over the three tables. The tables are read
   * into local copies and written back only if every step succeeds, which is
   * how the aborted transaction leaves the store as it was.
   */
  method PerformBatchImport(store: ScriptureStore, version: Version, verses: seq<Verse>, books: seq<Book>)
    returns (ok: bool, progress: seq<Progress>)
    modifies store
    ensures var r := ImportTables(old(store.Snapshot()), version, verses, books);
      && ok == r.Some?
      && (ok ==> store.Snapshot() == r.value && progress == ImportProgress(|verses|))
      && (!ok ==> store.Snapshot() == old(store.Snapshot()))
  {
    var t := store.Snapshot();
    var versions := t.versions[version.id := version];
    var bs := BooksNotOf(t.books, version.id);
    if |books| > 0 {
      var added := AddAll(bs, books, BookKey);
      if added.None? {
        return false, [];
      }
      bs := added.value;
    }
    var ws;
    ws, progress := AddBatches(VersesNotOf(t.verses, version.id), verses);
    if ws.None? {
      return false, progress;
    }
    store.versions, store.books, store.verses := versions, bs, ws.value;
    ok := true;
  }

  /** The transaction keeps every row of the three tables under its own key. */
  lemma ImportKeepsKeyed(t: Tables, version: Version, verses: seq<Verse>, books: seq<Book>)
    requires Keyed(t.versions, VersionKey) && Keyed(t.books, BookKey) && Keyed(t.verses, VerseKey)
    requires ImportTables(t, version, verses, books).Some?
    ensures var u := ImportTables(t, version, verses, books).value;
      Keyed(u.versions, VersionKey) && Keyed(u.books, BookKey) && Keyed(u.verses, VerseKey)
  {
    ImportTablesSpec(t, version, verses, books);
    var u := ImportTables(t, version, verses, books).value;
    forall k | k in u.books ensures BookKey(u.books[k]) == k {
      if k !in BooksNotOf(t.books, version.id) {
        var i :| 0 <= i < |books| && BookKey(books[i]) == k;
      }
    }
    forall k | k in u.verses ensures VerseKey(u.verses[k]) == k {
      if k !in VersesNotOf(t.verses, version.id) {
        var i :| 0 <= i < |verses| && VerseKey(verses[i]) == k;
      }
    }
  }

  // ---------------------------------------------------------------- processBibleBuffer

  /** Lines 73-77 and 80-213: what the importer for the file's kind makes of it. */
  function Normalise(f: BibleFile, parseJson: string -> Option<JsonBible>, parseXml: string -> Node, now: int): Result<Normalised, ImportError> {
    if IsJsonFile(f) then ImportFromJson(f.content, parseJson(f.content), f.name, now)
    else Success(XmlImport(f.content, parseXml(f.content), f.name, now))
  }

  /** Lines 85, 111 and 209: the reports of the parsing phase. */
  function ParseReports(f: BibleFile, parseXml: string -> Node): seq<Progress> {
    if IsJsonFile(f) then [Progress(Parsing, 100)] else XmlProgress(parseXml(f.content))
  }

  /**
   * Lines 73-77 with the transaction of lines 215-242: the outcome of
   * importing the file `f` into the tables `t`, and the tables afterwards.
   */
  function ProcessFile(t: Tables, f: BibleFile, parseJson: string -> Option<JsonBible>, parseXml: string -> Node,
                       now: int): (Result<Normalised, ImportError>, Tables)
  {
    var n := Normalise(f, parseJson, parseXml, now);
    if n.Failure? then (n, t)
    else
      var u := ImportTables(t, n.value.version, n.value.verses, n.value.books);
      if u.None? then (Failure(Aborted), t) else (n, u.value)
  }

  /** Lines 46-78: the same for the file chosen from `buffer`. */
  function Process(t: Tables, buffer: seq<Byte>, unzip: seq<Byte> -> Option<seq<(string, seq<Byte>)>>,
                   decode: seq<Byte> -> string, parseJson: string -> Option<JsonBible>, parseXml: string -> Node,
                   now: int): (Result<Normalised, ImportError>, Tables)
  {
    ProcessFile(t, ChooseFile(buffer, unzip(buffer), decode), parseJson, parseXml, now)
  }

  /**
   * An import either stores what the file normalises to, in one transaction,
   * or fails and leaves every table as it was; either way every row stays
   * under its own key. It fails exactly when the file is unreadable JSON or
   * the transaction aborts on a repeated or foreign key.
   */
  lemma ProcessSpec(t: Tables, buffer: seq<Byte>, unzip: seq<Byte> -> Option<seq<(string, seq<Byte>)>>,
                    decode: seq<Byte> -> string, parseJson: string -> Option<JsonBible>, parseXml: string -> Node, now: int)
    requires Keyed(t.versions, VersionKey) && Keyed(t.books, BookKey) && Keyed(t.verses, VerseKey)
    ensures var (r, u) := Process(t, buffer, unzip, decode, parseJson, parseXml, now);
      var f := ChooseFile(buffer, unzip(buffer), decode);
      var n := Normalise(f, parseJson, parseXml, now);
      && Keyed(u.versions, VersionKey) && Keyed(u.books, BookKey) && Keyed(u.verses, VerseKey)
      && (r.Failure? ==> u == t)
      && (r.Failure? <==> n.Failure? || ImportTables(t, n.value.version, n.value.verses, n.value.books).None?)
      && (r.Failure? && n.Success? ==> r.error == Aborted)
      && (r.Success? ==> r == n && Some(u) == ImportTables(t, n.value.version, n.value.verses, n.value.books))
      && (!IsJsonFile(f) ==> n.Success?)
  {
    var f := ChooseFile(buffer, unzip(buffer), decode);
    var n := Normalise(f, parseJson, parseXml, now);
    if n.Success? && ImportTables(t, n.value.version, n.value.verses, n.value.books).Some? {
      ImportKeepsKeyed(t, n.value.version, n.value.verses, n.value.books);
    }
  }

  /** Lines 46-78: choose the file, report the unzipping, and import the file. */
  method ProcessBibleBuffer(store: ScriptureStore, buffer: seq<Byte>, unzip: seq<Byte> -> Option<seq<(string, seq<Byte>)>>,
                            decode: seq<Byte> -> string, parseJson: string -> Option<JsonBible>, parseXml: string -> Node,
                            now: int)
    returns (r: Result<Normalised, ImportError>, progress: seq<Progress>)
    modifies store
    ensures (r, store.Snapshot()) == Process(old(store.Snapshot()), buffer, unzip, decode, parseJson, parseXml, now)
    ensures |progress| >= 2 && progress[..2] == [Progress(Unzipping, 0), Progress(Unzipping, 100)]
    ensures r.Success? ==>
      progress == [Progress(Unzipping, 0), Progress(Unzipping, 100)]
                  + ParseReports(ChooseFile(buffer, unzip(buffer), decode), parseXml) + ImportProgress(|r.value.verses|)
  {
    progress := [Progress(Unzipping, 0)];
    var file := ChooseFile(buffer, unzip(buffer), decode);
    progress := progress + [Progress(Unzipping, 100)];
    var unzipping := progress;
    var rest;
    r, rest := ImportFile(store, file, parseJson, parseXml, now);
    progress := progress + rest;
    assert progress[..2] == unzipping;
  }

  /** Lines 72-77: the importer for the file's kind, then the transaction. */
  method ImportFile(store: ScriptureStore, file: BibleFile, parseJson: string -> Option<JsonBible>, parseXml: string -> Node, now: int)
    returns (r: Result<Normalised, ImportError>, progress: seq<Progress>)
    modifies store
    ensures (r, store.Snapshot()) == ProcessFile(old(store.Snapshot()), file, parseJson, parseXml, now)
    ensures r.Success? ==> progress == ParseReports(file, parseXml) + ImportProgress(|r.value.verses|)
  {
    var normalised: Normalised;
    var parsing: seq<Progress>;
    if IsJsonFile(file) {
      parsing := [Progress(Parsing, 100)];
      var n := ImportFromJson(file.content, parseJson(file.content), file.name, now);
      if n.Failure? {
        return n, parsing;
      }
      normalised := n.value;
    } else {
      normalised, parsing := ImportFromXml(file.content, parseXml(file.content), file.name, now);
    }
    var ok, importing := PerformBatchImport(store, normalised.version, normalised.verses, normalised.books);
    progress := parsing + importing;
    r := if ok then Success(normalised) else Failure(Aborted);
  }

  // ---------------------------------------------------------------- importBibleModule

  /**
   * Lines 9-44. The response is given by its `ok` flag, status text,
   * `content-length` header and body (`None` when it has no reader), the body
   * as the chunks the reader yields.
   */
  method ImportBibleModule(store: ScriptureStore, responseOk: bool, statusText: string, contentLength: Option<string>,
                           body: Option<seq<seq<Byte>>>, unzip: seq<Byte> -> Option<seq<(string, seq<Byte>)>>,
                           decode: seq<Byte> -> string, parseJson: string -> Option<JsonBible>, parseXml: string -> Node,
                           now: int)
    returns (r: Result<Normalised, ImportError>, progress: seq<Progress>)
    modifies store
    ensures !responseOk ==> r == Failure(DownloadFailed(statusText)) && store.Snapshot() == old(store.Snapshot())
    ensures responseOk && body.None? ==> r == Failure(NoReader) && store.Snapshot() == old(store.Snapshot())
    ensures responseOk && body.Some? ==>
      (r, store.Snapshot()) == Process(old(store.Snapshot()), Flatten(body.value), unzip, decode, parseJson, parseXml, now)
    ensures |progress| >= 1 && progress[0] == Progress(Downloading, 0)
  {
    progress := [Progress(Downloading, 0)];
    if !responseOk {
      return Failure(DownloadFailed(statusText)), progress;
    }
    var total := ContentTotal(contentLength);
    if body.None? {
      return Failure(NoReader), progress;
    }
    var blob, downloading := ReadAll(body.value, total);
    progress := progress + downloading;
    var processing;
    r, processing := ProcessBibleBuffer(store, blob[..], unzip, decode, parseJson, parseXml, now);
    progress := progress + processing;
  }
}
