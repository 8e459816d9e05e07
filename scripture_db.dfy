/**
 * The three tables of the scripture store (src/features/scripture/lib/db.ts):
 * versions keyed by id, books keyed by `version|bookId`, verses keyed by
 * `version|bookId|chapter|verse`. A table is a map from primary key to row.
 */
module ScriptureDb {
  import opened Wrappers

  /**
   * A Bible version. `code` is optional: the JSON importer copies it from the
   * file's version object and never derives one.
   */
  datatype Version = Version(id: string, name: string, code: Option<string>, lastUpdated: int, size: nat)

  /** A book of one version; `pk` is `version|id`, `chapters` the chapter count. */
  datatype Book = Book(pk: string, version: string, id: string, name: string,
                       abbreviation: Option<string>, chapters: int)

  /** A verse row; `bookName` is absent when a JSON verse carries none. */
  datatype Verse = Verse(pk: string, version: string, bookId: string, bookName: Option<string>,
                         chapter: int, verse: int, text: string)

  function VersionKey(v: Version): string { v.id }
  function BookKey(b: Book): string { b.pk }
  function VerseKey(v: Verse): string { v.pk }

  /** Every row sits under its own primary key. */
  predicate Keyed<R>(m: map<string, R>, key: R -> string) {
    forall k | k in m :: key(m[k]) == k
  }

  function BookVersion(b: Book): string { b.version }
  function VerseVersion(v: Verse): string { v.version }

  /** The rows of a table whose version, read by `version`, is not `id`, unchanged. */
  function RowsNotOf<R>(m: map<string, R>, version: R -> string, id: string): (r: map<string, R>)
    ensures forall k :: k in r <==> k in m && version(m[k]) != id
    ensures forall k | k in r :: r[k] == m[k]
  {
    map k | k in m && version(m[k]) != id :: m[k]
  }

  /** `db.books.where("version").equals(id).delete()` leaves these. */
  function BooksNotOf(m: map<string, Book>, id: string): map<string, Book> {
    RowsNotOf(m, BookVersion, id)
  }

  /** `db.verses.where("version").equals(id).delete()` leaves these. */
  function VersesNotOf(m: map<string, Verse>, id: string): map<string, Verse> {
    RowsNotOf(m, VerseVersion, id)
  }

  /** No two of `rows` share a key. */
  predicate DistinctKeys<R>(rows: seq<R>, key: R -> string) {
    forall i, j | 0 <= i < j < |rows| :: key(rows[i]) != key(rows[j])
  }

  function KeySet<R>(rows: seq<R>, key: R -> string): set<string> {
    set i | 0 <= i < |rows| :: key(rows[i])
  }

  /**
   * Dexie's `bulkAdd`: every row is added under its key; the call fails
   * (`None`) when a key is already in the table or repeats within `rows`.
   */
  function AddAll<R>(m: map<string, R>, rows: seq<R>, key: R -> string): Option<map<string, R>>
    decreases |rows|
  {
    if rows == [] then Some(m)
    else
      var last := rows[|rows| - 1];
      match AddAll(m, rows[..|rows| - 1], key)
      case None => None
      case Some(m') => if key(last) in m' then None else Some(m'[key(last) := last])
  }

  /**
   * `bulkAdd` succeeds exactly when the keys are new and distinct; the table
   * then holds its old rows and every new row under its key, and nothing else.
   */
  lemma {:induction false} AddAllSpec<R>(m: map<string, R>, rows: seq<R>, key: R -> string)
    ensures var r := AddAll(m, rows, key);
      && (r.Some? <==> DistinctKeys(rows, key) && forall i | 0 <= i < |rows| :: key(rows[i]) !in m)
      && (r.Some? ==> r.value.Keys == m.Keys + KeySet(rows, key))
      && (r.Some? ==> forall k | k in m :: r.value[k] == m[k])
      && (r.Some? ==> forall i | 0 <= i < |rows| :: r.value[key(rows[i])] == rows[i])
    decreases |rows|
  {
    if rows != [] {
      var init, last := rows[..|rows| - 1], rows[|rows| - 1];
      AddAllSpec(m, init, key);
      AddAllStep(m, init, last, key);
      assert rows == init + [last];
    }
  }

  /** One row more: `bulkAdd` of `init + [last]` from the facts about `init`. */
  lemma AddAllStep<R>(m: map<string, R>, init: seq<R>, last: R, key: R -> string)
    requires var r := AddAll(m, init, key);
      && (r.Some? <==> DistinctKeys(init, key) && forall i | 0 <= i < |init| :: key(init[i]) !in m)
      && (r.Some? ==> r.value.Keys == m.Keys + KeySet(init, key))
      && (r.Some? ==> forall k | k in m :: r.value[k] == m[k])
      && (r.Some? ==> forall i | 0 <= i < |init| :: r.value[key(init[i])] == init[i])
    ensures var rows := init + [last];
      var r := AddAll(m, rows, key);
      && (r.Some? <==> DistinctKeys(rows, key) && forall i | 0 <= i < |rows| :: key(rows[i]) !in m)
      && (r.Some? ==> r.value.Keys == m.Keys + KeySet(rows, key))
      && (r.Some? ==> forall k | k in m :: r.value[k] == m[k])
      && (r.Some? ==> forall i | 0 <= i < |rows| :: r.value[key(rows[i])] == rows[i])
  {
    var rows := init + [last];
    assert rows[..|rows| - 1] == init;
    assert rows[|rows| - 1] == last;
    assert forall i | 0 <= i < |init| :: rows[i] == init[i];
    assert KeySet(rows, key) == KeySet(init, key) + {key(last)} by {
      forall k | k in KeySet(rows, key) ensures k in KeySet(init, key) + {key(last)} {
        var i :| 0 <= i < |rows| && key(rows[i]) == k;
      }
      forall k | k in KeySet(init, key) ensures k in KeySet(rows, key) {
        var i :| 0 <= i < |init| && key(init[i]) == k;
        assert key(rows[i]) == k;
      }
      assert key(rows[|init|]) == key(last);
    }
    var r0 := AddAll(m, init, key);
    if r0.Some? && key(last) in r0.value {
      NotDistinctWithLast(m, init, last, key, r0.value);
    }
  }

  /** The key of `last` is taken: either it was in the table, or it is one of `init`'s. */
  lemma NotDistinctWithLast<R>(m: map<string, R>, init: seq<R>, last: R, key: R -> string, m': map<string, R>)
    requires m'.Keys == m.Keys + KeySet(init, key) && key(last) in m'
    ensures !(DistinctKeys(init + [last], key) && forall i | 0 <= i < |init| + 1 :: key((init + [last])[i]) !in m)
  {
    var rows := init + [last];
    assert rows[|init|] == last;
    if key(last) !in m {
      var i :| 0 <= i < |init| && key(init[i]) == key(last);
      assert rows[i] == init[i];
    }
  }

  /** The contents of the three tables. */
  datatype Tables = Tables(versions: map<string, Version>, books: map<string, Book>, verses: map<string, Verse>)

  /** The verse rows in IndexedDB, and the version and book rows beside them. */
  class ScriptureStore {
    var versions: map<string, Version>
    var books: map<string, Book>
    var verses: map<string, Verse>

    predicate Valid()
      reads this
    {
      Keyed(versions, VersionKey) && Keyed(books, BookKey) && Keyed(verses, VerseKey)
    }

    function Snapshot(): Tables
      reads this
    {
      Tables(versions, books, verses)
    }

    constructor ()
      ensures Valid()
      ensures versions == map[] && books == map[] && verses == map[]
    {
      versions, books, verses := map[], map[], map[];
    }
  }
}
