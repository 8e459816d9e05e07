/**
 * The song categories of the backend (convex/categories.ts): the three
 * default categories of an organisation, custom ones appended after the
 * existing ones, renaming, and removal, which leaves the category's songs
 * uncategorised.
 *
 * The categories and songs tables are maps from document id to row, and
 * `Date.now()` is a parameter.
 */
module Categories {
  import opened Wrappers
  import opened Types
  import opened Ids

  /** A patch or delete of a missing row throws and writes nothing. */
  datatype CategoryError = CategoryNotFound

  /** Line 25 */
  const Defaults: seq<string> := ["Songs", "Flows", "Hymns"]

  /** Lines 17-22: whether the organisation has any category. */
  predicate HasCategory(rows: map<string, Category>, orgId: string) {
    exists id | id in rows :: rows[id].orgId == orgId
  }

  /** Lines 45-48: the ids of the organisation's categories. */
  function OrgIds(rows: map<string, Category>, orgId: string): set<string> {
    set id | id in rows && rows[id].orgId == orgId
  }

  /** The id of the default category inserted at step `i`. */
  function DefaultId(next: nat, i: nat): string {
    IdOf(next + i)
  }

  /** Lines 28-34: the default category inserted at step `i`, under the id the counter gives it. */
  function DefaultRow(orgId: string, next: nat, now: int, i: nat): Category
    requires i < |Defaults|
  {
    Category(DefaultId(next, i), now, orgId, Defaults[i], true, i, now)
  }

  /** The table after the first `n` default insertions. */
  function WithDefaults(rows: map<string, Category>, orgId: string, next: nat, now: int, n: nat): map<string, Category>
    requires n <= |Defaults|
  {
    if n == 0 then rows
    else
      var c := DefaultRow(orgId, next, now, n - 1);
      WithDefaults(rows, orgId, next, now, n - 1)[c.id := c]
  }

  /** Lines 14-37: the table after `ensureDefaults`. */
  function EnsureDefaultsSpec(rows: map<string, Category>, orgId: string, next: nat, now: int): map<string, Category> {
    if HasCategory(rows, orgId) then rows else WithDefaults(rows, orgId, next, now, |Defaults|)
  }

  /**
   * With fresh ids, the default insertions keep every row and add exactly
   * one row per step, the default category of that step.
   */
  lemma WithDefaultsRows(rows: map<string, Category>, orgId: string, next: nat, now: int, n: nat)
    requires n <= |Defaults| && FreshFrom(rows, next)
    ensures var r := WithDefaults(rows, orgId, next, now, n);
      && (forall id | id in rows :: id in r && r[id] == rows[id])
      && (forall i | 0 <= i < n :: DefaultId(next, i) in r && r[DefaultId(next, i)] == DefaultRow(orgId, next, now, i))
      && (forall id | id in r :: id in rows || exists i | 0 <= i < n :: id == DefaultId(next, i))
  {
    WithDefaultsKeeps(rows, orgId, next, now, n);
    WithDefaultsHas(rows, orgId, next, now, n);
    WithDefaultsOnly(rows, orgId, next, now, n);
  }

  lemma {:induction false} WithDefaultsKeeps(rows: map<string, Category>, orgId: string, next: nat, now: int, n: nat)
    requires n <= |Defaults| && FreshFrom(rows, next)
    ensures var r := WithDefaults(rows, orgId, next, now, n);
      forall id | id in rows :: id in r && r[id] == rows[id]
  {
    if n > 0 {
      WithDefaultsKeeps(rows, orgId, next, now, n - 1);
      assert IdOf(next + (n - 1)) !in rows;
    }
  }

  lemma {:induction false} WithDefaultsHas(rows: map<string, Category>, orgId: string, next: nat, now: int, n: nat)
    requires n <= |Defaults|
    ensures var r := WithDefaults(rows, orgId, next, now, n);
      forall i | 0 <= i < n :: DefaultId(next, i) in r && r[DefaultId(next, i)] == DefaultRow(orgId, next, now, i)
  {
    if n > 0 {
      WithDefaultsHas(rows, orgId, next, now, n - 1);
      forall i | 0 <= i < n - 1 ensures DefaultId(next, i) != DefaultId(next, n - 1) {
        IdOfInjective(next + i, next + n - 1);
      }
    }
  }

  lemma {:induction false} WithDefaultsOnly(rows: map<string, Category>, orgId: string, next: nat, now: int, n: nat)
    requires n <= |Defaults|
    ensures var r := WithDefaults(rows, orgId, next, now, n);
      forall id | id in r :: id in rows || exists i | 0 <= i < n :: id == DefaultId(next, i)
  {
    if n > 0 {
      WithDefaultsOnly(rows, orgId, next, now, n - 1);
      var r := WithDefaults(rows, orgId, next, now, n);
      forall id | id in r ensures id in rows || exists i | 0 <= i < n :: id == DefaultId(next, i) {
        if id == DefaultId(next, n - 1) {
          assert 0 <= n - 1 < n;
        }
      }
    }
  }

  /**
   * An organisation without categories ends up with exactly the three
   * defaults: `Songs`, `Flows` and `Hymns`, default, ordered 0, 1, 2. Rows
   * of other organisations stay as they were.
   */
  lemma DefaultsOfEmptyOrg(rows: map<string, Category>, orgId: string, next: nat, now: int)
    requires FreshFrom(rows, next) && !HasCategory(rows, orgId)
    ensures var r := EnsureDefaultsSpec(rows, orgId, next, now);
      && OrgIds(r, orgId) == {DefaultId(next, 0), DefaultId(next, 1), DefaultId(next, 2)}
      && |OrgIds(r, orgId)| == 3
      && (forall i | 0 <= i < 3 :: DefaultId(next, i) in r && r[DefaultId(next, i)] == DefaultRow(orgId, next, now, i))
      && (forall id | id in rows :: id in r && r[id] == rows[id])
  {
    var r := EnsureDefaultsSpec(rows, orgId, next, now);
    WithDefaultsRows(rows, orgId, next, now, 3);
    var ids := {DefaultId(next, 0), DefaultId(next, 1), DefaultId(next, 2)};
    forall id | id in OrgIds(r, orgId) ensures id in ids {
      assert id !in rows;
    }
    forall i | 0 <= i < 3 ensures DefaultId(next, i) in OrgIds(r, orgId) {
      assert r[DefaultId(next, i)].orgId == orgId;
    }
    assert OrgIds(r, orgId) == ids;
    IdOfInjective(next, next + 1);
    IdOfInjective(next, next + 2);
    IdOfInjective(next + 1, next + 2);
  }

  /** Calling `ensureDefaults` twice is calling it once. */
  lemma EnsureDefaultsIdempotent(rows: map<string, Category>, orgId: string, next: nat, now: int, next2: nat, now2: int)
    ensures var once := EnsureDefaultsSpec(rows, orgId, next, now);
      EnsureDefaultsSpec(once, orgId, next2, now2) == once
  {
    if !HasCategory(rows, orgId) {
      var once := WithDefaults(rows, orgId, next, now, 3);
      var c := DefaultRow(orgId, next, now, 2);
      assert c.id in once && once[c.id].orgId == orgId;
    }
  }

  /** Lines 75-83: the songs after the category's songs were patched to have none. */
  function Orphaned(songs: map<string, Song>, categoryId: string): map<string, Song> {
    map id | id in songs :: if songs[id].categoryId == Some(categoryId) then songs[id].(categoryId := None) else songs[id]
  }

  /**
   * Exactly the songs of the category lose it; nothing else about any song
   * changes, and no song is left in the category.
   */
  lemma OrphanedSpec(songs: map<string, Song>, categoryId: string)
    ensures var r := Orphaned(songs, categoryId);
      && r.Keys == songs.Keys
      && (forall id | id in songs :: r[id] == songs[id].(categoryId := r[id].categoryId))
      && (forall id | id in songs :: songs[id].categoryId == Some(categoryId) ==> r[id].categoryId == None)
      && (forall id | id in songs :: songs[id].categoryId != Some(categoryId) ==> r[id] == songs[id])
      && (forall id | id in r :: r[id].categoryId != Some(categoryId))
  {
  }

  class CategoryStore {
    var categories: map<string, Category>
    var songs: map<string, Song>
    var nextId: nat

    /** Rows are stored under their own ids; the counter's next ids are unused. */
    ghost predicate Valid()
      reads this
    {
      && FreshFrom(categories, nextId)
      && (forall id | id in categories :: categories[id].id == id)
      && (forall id | id in songs :: songs[id].id == id)
    }

    constructor(songs: map<string, Song>)
      requires forall id | id in songs :: songs[id].id == id
      ensures Valid() && categories == map[] && this.songs == songs
    {
      categories := map[];
      this.songs := songs;
      nextId := 0;
    }

    /** Lines 14-37: `ensureDefaults` */
    method EnsureDefaults(orgId: string, now: int)
      requires Valid()
      modifies this
      ensures Valid()
      ensures categories == EnsureDefaultsSpec(old(categories), orgId, old(nextId), now)
      ensures songs == old(songs)
    {
      var existing := exists id | id in categories :: categories[id].orgId == orgId;
      if !existing {
        InsertDefaults(orgId, now);
      }
    }

    /** Lines 24-35: the insertion loop of `ensureDefaults`. */
    method InsertDefaults(orgId: string, now: int)
      requires Valid()
      modifies this
      ensures Valid() && songs == old(songs)
      ensures categories == WithDefaults(old(categories), orgId, old(nextId), now, |Defaults|)
    {
      ghost var rows0 := categories;
      ghost var next0 := nextId;
      for i := 0 to |Defaults|
        invariant Valid() && songs == old(songs)
        invariant nextId == next0 + i
        invariant categories == WithDefaults(rows0, orgId, next0, now, i)
      {
        ghost var before := categories;
        var id := Insert(orgId, Defaults[i], true, i, now);
        assert categories == before[id := DefaultRow(orgId, next0, now, i)];
      }
    }

    /** Line 28 and line 51: `ctx.db.insert` of a category under a fresh id. */
    method Insert(orgId: string, name: string, isDefault: bool, order: int, now: int) returns (id: string)
      requires Valid()
      modifies this
      ensures Valid() && songs == old(songs)
      ensures id == IdOf(old(nextId)) && id !in old(categories) && nextId == old(nextId) + 1
      ensures categories == old(categories)[id := Category(id, now, orgId, name, isDefault, order, now)]
    {
      id := IdOf(nextId);
      FreshAfterInsert(categories, nextId, Category(id, now, orgId, name, isDefault, order, now));
      categories := categories[id := Category(id, now, orgId, name, isDefault, order, now)];
      nextId := nextId + 1;
    }

    /** Lines 39-59: `create` appends a custom category after the organisation's existing ones. */
    method Create(orgId: string, name: string, now: int) returns (id: string)
      requires Valid()
      modifies this
      ensures Valid() && songs == old(songs)
      ensures id !in old(categories)
      ensures categories == old(categories)[id := Category(id, now, orgId, name, false, |OrgIds(old(categories), orgId)|, now)]
    {
      var existing := OrgIds(categories, orgId);
      id := Insert(orgId, name, false, |existing|, now);
    }

    /** Lines 61-70: `update` renames a category. */
    method Update(categoryId: string, name: string) returns (r: Result<string, CategoryError>)
      requires Valid()
      modifies this
      ensures Valid() && songs == old(songs) && nextId == old(nextId)
      ensures categoryId !in old(categories) ==> r == Failure(CategoryNotFound) && categories == old(categories)
      ensures categoryId in old(categories) ==> (r == Success(categoryId) &&
        categories == old(categories)[categoryId := old(categories)[categoryId].(name := name)])
    {
      if categoryId !in categories {
        return Failure(CategoryNotFound);
      }
      categories := categories[categoryId := categories[categoryId].(name := name)];
      r := Success(categoryId);
    }

    /**
     * Lines 72-87: `remove` patches each song of the category, then deletes
     * it; when the category is missing the delete throws and the patches do
     * not commit.
     */
    method Remove(categoryId: string) returns (r: Result<(), CategoryError>)
      requires Valid()
      modifies this
      ensures Valid() && nextId == old(nextId)
      ensures categoryId !in old(categories) ==> (r == Failure(CategoryNotFound) &&
        categories == old(categories) && songs == old(songs))
      ensures categoryId in old(categories) ==> (r == Success(()) &&
        categories == old(categories) - {categoryId} && songs == Orphaned(old(songs), categoryId))
    {
      var inCategory := set id | id in songs && songs[id].categoryId == Some(categoryId);
      var updated := songs;
      var todo := inCategory;
      while todo != {}
        invariant todo <= inCategory
        invariant updated.Keys == songs.Keys
        invariant forall id | id in songs ::
          updated[id] == if id in inCategory && id !in todo then songs[id].(categoryId := None) else songs[id]
        decreases |todo|
      {
        var id :| id in todo;
        updated := updated[id := updated[id].(categoryId := None)];
        todo := todo - {id};
      }
      if categoryId !in categories {
        return Failure(CategoryNotFound);
      }
      songs := updated;
      categories := categories - {categoryId};
      r := Success(());
    }
  }
}
