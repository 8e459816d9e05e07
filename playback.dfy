/**
 * The playback state of an organisation (convex/playback.ts): which slide
 * and background are live and whether the output is blacked out. Each
 * organisation is meant to have one row, found with a `unique()` query and
 * upserted by `setActiveSlide`.
 */
module Playback {
  import opened Wrappers
  import opened Ids

  datatype PlaybackState = PlaybackState(
    id: string, creationTime: int, orgId: string,
    activeSlideId: Option<string>, activeBackgroundId: Option<string>,
    isBlackedOut: bool, updatedAt: int)

  /** `unique()` throws when more than one row matches. */
  datatype PlaybackError = NotUnique

  /** Lines 29-34: the patch of an existing row. */
  function Patched(row: PlaybackState, activeSlideId: Option<string>, activeBackgroundId: Option<string>,
                   isBlackedOut: Option<bool>, now: int): PlaybackState {
    row.(activeSlideId := activeSlideId.OrElse(row.activeSlideId),
         activeBackgroundId := activeBackgroundId.OrElse(row.activeBackgroundId),
         isBlackedOut := isBlackedOut.GetOr(row.isBlackedOut),
         updatedAt := now)
  }

  /** Lines 38-48: the row inserted when the organisation has none; absent fields stay absent. */
  function Inserted(id: string, orgId: string, activeSlideId: Option<string>, activeBackgroundId: Option<string>,
                    isBlackedOut: Option<bool>, now: int): PlaybackState {
    PlaybackState(id, now, orgId, activeSlideId, activeBackgroundId, isBlackedOut.GetOr(false), now)
  }

  /**
   * Two patches in a row are one patch with, field by field, the later
   * provided value, else the earlier one; the identity of the row stays.
   */
  lemma PatchedTwice(row: PlaybackState, s1: Option<string>, b1: Option<string>, k1: Option<bool>, t1: int,
                     s2: Option<string>, b2: Option<string>, k2: Option<bool>, t2: int)
    ensures Patched(Patched(row, s1, b1, k1, t1), s2, b2, k2, t2) ==
            Patched(row, s2.OrElse(s1), b2.OrElse(b1), k2.OrElse(k1), t2)
    ensures Patched(row, s1, b1, k1, t1).id == row.id && Patched(row, s1, b1, k1, t1).orgId == row.orgId
  {
  }

  /** Line 30: an empty id is a value, so it replaces the live slide. */
  lemma EmptySlideIdOverwrites(row: PlaybackState, b: Option<string>, k: Option<bool>, t: int)
    ensures Patched(row, Some(""), b, k, t).activeSlideId == Some("")
    ensures Patched(row, None, b, k, t).activeSlideId == row.activeSlideId
  {
  }

  /** The ids of the organisation's rows. */
  function OrgRows(rows: map<string, PlaybackState>, orgId: string): set<string> {
    set id | id in rows && rows[id].orgId == orgId
  }

  /** No organisation has two rows. */
  predicate OnePerOrg(rows: map<string, PlaybackState>) {
    forall a, b | a in rows && b in rows && rows[a].orgId == rows[b].orgId :: a == b
  }

  /** Patching a row without moving it to another organisation keeps every organisation's rows. */
  lemma PatchKeepsOrgs(rows: map<string, PlaybackState>, id: string, row: PlaybackState, orgId: string)
    requires id in rows && row.orgId == rows[id].orgId
    ensures OrgRows(rows[id := row], orgId) == OrgRows(rows, orgId)
    ensures OnePerOrg(rows) ==> OnePerOrg(rows[id := row])
  {
  }

  /** Inserting the first row of an organisation gives it exactly that row. */
  lemma InsertKeepsOrgs(rows: map<string, PlaybackState>, id: string, row: PlaybackState)
    requires id !in rows && OrgRows(rows, row.orgId) == {}
    ensures OrgRows(rows[id := row], row.orgId) == {id}
    ensures OnePerOrg(rows) ==> OnePerOrg(rows[id := row])
  {
    forall other | other in rows ensures rows[other].orgId != row.orgId {
      assert other !in OrgRows(rows, row.orgId);
    }
  }

  class PlaybackTable {
    var rows: map<string, PlaybackState>
    var nextId: nat

    ghost predicate Valid()
      reads this
    {
      && FreshFrom(rows, nextId)
      && forall id | id in rows :: rows[id].id == id
    }

    constructor()
      ensures Valid() && OnePerOrg(rows) && rows == map[]
    {
      rows := map[];
      nextId := 0;
    }

    /** Lines 4-12: `getByOrg`, the organisation's only row or none; two rows or more throw. */
    method GetByOrg(orgId: string) returns (r: Result<Option<PlaybackState>, PlaybackError>)
      requires Valid()
      ensures r == Success(None) <==> OrgRows(rows, orgId) == {}
      ensures r == Failure(NotUnique) <==> |OrgRows(rows, orgId)| > 1
      ensures r.Success? && r.value.Some? ==>
        OrgRows(rows, orgId) == {r.value.value.id} && r.value.value.id in rows && rows[r.value.value.id] == r.value.value
      ensures OnePerOrg(rows) ==> r.Success?
    {
      var ids := OrgRows(rows, orgId);
      if ids == {} {
        return Success(None);
      }
      var id :| id in ids;
      if ids != {id} {
        var other :| other in ids && other != id;
        assert ids == {id, other} + (ids - {id, other});
        return Failure(NotUnique);
      }
      r := Success(Some(rows[id]));
    }

    /** Lines 14-51: `setActiveSlide` patches the organisation's row, or inserts one. */
    method SetActiveSlide(orgId: string, activeSlideId: Option<string>, activeBackgroundId: Option<string>,
                          isBlackedOut: Option<bool>, now: int) returns (r: Result<string, PlaybackError>)
      requires Valid()
      modifies this
      ensures Valid()
      ensures |OrgRows(old(rows), orgId)| > 1 ==> r == Failure(NotUnique) && rows == old(rows)
      ensures OrgRows(old(rows), orgId) == {} ==> (r.Success? && r.value !in old(rows) &&
        rows == old(rows)[r.value := Inserted(r.value, orgId, activeSlideId, activeBackgroundId, isBlackedOut, now)])
      ensures |OrgRows(old(rows), orgId)| == 1 ==> (r.Success? && OrgRows(old(rows), orgId) == {r.value} &&
        rows == old(rows)[r.value := Patched(old(rows)[r.value], activeSlideId, activeBackgroundId, isBlackedOut, now)])
      ensures r.Success? ==> OrgRows(rows, orgId) == {r.value}
      ensures OnePerOrg(old(rows)) ==> OnePerOrg(rows)
    {
      var existing := GetByOrg(orgId);
      if existing.Failure? {
        assert existing.error == NotUnique;
        return Failure(NotUnique);
      }
      if existing.value.Some? {
        var row := existing.value.value;
        var patched := Patched(row, activeSlideId, activeBackgroundId, isBlackedOut, now);
        PatchKeepsOrgs(rows, row.id, patched, orgId);
        rows := rows[row.id := patched];
        return Success(row.id);
      }
      var id := IdOf(nextId);
      var row := Inserted(id, orgId, activeSlideId, activeBackgroundId, isBlackedOut, now);
      FreshAfterInsert(rows, nextId, row);
      InsertKeepsOrgs(rows, id, row);
      rows := rows[id := row];
      nextId := nextId + 1;
      r := Success(id);
    }
  }
}
