/**
 * The services table of the backend (convex/services.ts): a service is a
 * named, dated running order of items, and each mutation reads one row and
 * patches it. The table is a map from document id to row, and `Date.now()`
 * is a parameter.
 */
module Services {
  import opened Wrappers
  import opened Types
  import opened Ids

  /** Why a mutation throws; a throwing mutation writes nothing. */
  datatype ServiceError =
    | ServiceNotFound   // "Service not found"
    | UndefinedItem     // the database rejects an `undefined` list entry
    | MissingDocument   // `ctx.db.delete` of an id with no row

  // ---------------------------------------------------------------- splice

  /** Where `splice(start, …)` begins on a list of `len` elements. */
  function SpliceStart(start: int, len: nat): (k: nat)
    ensures k <= len
  {
    if start < 0 then (if len + start < 0 then 0 else len + start)
    else if start > len then len
    else start
  }

  /** `items.splice(start, 1)`: the list left behind and the element taken out. */
  function SpliceOut<T>(items: seq<T>, start: int): (seq<T>, Option<T>) {
    var k := SpliceStart(start, |items|);
    if k < |items| then (items[..k] + items[k + 1..], Some(items[k])) else (items, None)
  }

  /** `items.splice(start, 0, x)` */
  function SpliceIn<T>(items: seq<T>, start: int, x: T): seq<T> {
    var k := SpliceStart(start, |items|);
    items[..k] + [x] + items[k..]
  }

  /** The list without its element at `i`. */
  function Without<T>(s: seq<T>, i: nat): seq<T>
    requires i < |s|
  {
    s[..i] + s[i + 1..]
  }

  /** Lines 74-75: the items after `removeItem`. */
  function RemovedItem(items: seq<ServiceItem>, index: int): seq<ServiceItem> {
    SpliceOut(items, index).0
  }

  /**
   * Lines 92-94: the items after `reorderItems`, or `None` when the first
   * splice takes nothing out and the second puts `undefined` in.
   */
  function Reordered(items: seq<ServiceItem>, from: int, to: int): Option<seq<ServiceItem>> {
    var (rest, removed) := SpliceOut(items, from);
    if removed.None? then None else Some(SpliceIn(rest, to, removed.value))
  }

  /**
   * Removing index `i`: an index in range drops exactly that item and keeps
   * the others in order; an index past the end changes nothing; a negative
   * index counts from the end, and one before the start drops the first.
   */
  lemma RemovedItemSpec(items: seq<ServiceItem>, i: int)
    ensures 0 <= i < |items| ==> RemovedItem(items, i) == Without(items, i)
    ensures i >= |items| ==> RemovedItem(items, i) == items
    ensures -|items| <= i < 0 ==> RemovedItem(items, i) == Without(items, |items| + i)
    ensures i < -|items| && items != [] ==> RemovedItem(items, i) == items[1..]
  {
  }

  /** At most one item goes, and exactly one when the list is not empty and the index is not past its end. */
  lemma RemovedItemCount(items: seq<ServiceItem>, i: int)
    ensures multiset(RemovedItem(items, i)) <= multiset(items)
    ensures |RemovedItem(items, i)| == if items == [] || i >= |items| then |items| else |items| - 1
  {
    var k := SpliceStart(i, |items|);
    if k < |items| {
      assert items == items[..k] + [items[k]] + items[k + 1..];
      assert multiset(items) == multiset(items[..k] + items[k + 1..]) + multiset{items[k]};
    }
  }

  /**
   * Moving an item from index `from`, in range, to `to`: the same items,
   * the moved one at the (clamped) target index, and the others in their
   * old relative order.
   */
  lemma ReorderedSpec(items: seq<ServiceItem>, from: int, to: int)
    requires 0 <= SpliceStart(from, |items|) < |items|
    ensures var f := SpliceStart(from, |items|); var t := SpliceStart(to, |items| - 1);
      && Reordered(items, from, to).Some?
      && var r := Reordered(items, from, to).value;
      && |r| == |items|
      && multiset(r) == multiset(items)
      && r[t] == items[f]
      && Without(r, t) == Without(items, f)
  {
    var f := SpliceStart(from, |items|);
    SpliceOutSpec(items, f);
    assert SpliceOut(items, from) == (Without(items, f), Some(items[f]));
    SpliceInSpec(Without(items, f), to, items[f]);
  }

  /** Taking out the element at `f` leaves the others, and the multiset loses just that one. */
  lemma SpliceOutSpec<T>(items: seq<T>, f: nat)
    requires f < |items|
    ensures SpliceOut(items, f) == (Without(items, f), Some(items[f]))
    ensures multiset(items) == multiset(Without(items, f)) + multiset{items[f]}
    ensures |Without(items, f)| == |items| - 1
  {
    assert items == items[..f] + [items[f]] + items[f + 1..];
  }

  /** Putting `x` in at the clamped index `t`: `x` lands at `t` and taking it out again gives the old list. */
  lemma SpliceInSpec<T>(rest: seq<T>, to: int, x: T)
    ensures var t := SpliceStart(to, |rest|); var r := SpliceIn(rest, to, x);
      && |r| == |rest| + 1
      && r[t] == x
      && Without(r, t) == rest
      && multiset(r) == multiset(rest) + multiset{x}
  {
    var t := SpliceStart(to, |rest|);
    var r := SpliceIn(rest, to, x);
    assert r[..t] == rest[..t];
    assert r[t + 1..] == rest[t..];
    assert rest == rest[..t] + rest[t..];
  }

  /** For non-negative indexes in range, the moved item lands at `to`, or at the end when `to` is past it. */
  lemma ReorderedInRange(items: seq<ServiceItem>, from: int, to: int)
    requires 0 <= from < |items| && to >= 0
    ensures var t := if to < |items| then to else |items| - 1;
      && Reordered(items, from, to).Some?
      && Reordered(items, from, to).value[t] == items[from]
      && Without(Reordered(items, from, to).value, t) == Without(items, from)
      && multiset(Reordered(items, from, to).value) == multiset(items)
  {
    ReorderedSpec(items, from, to);
  }

  /** An index that takes nothing out makes the mutation fail. */
  lemma ReorderedOutOfRange(items: seq<ServiceItem>, from: int, to: int)
    ensures Reordered(items, from, to).None? <==> items == [] || from >= |items|
  {
  }

  // ---------------------------------------------------------------- the table

  class ServiceTable {
    var rows: map<string, Service>
    var nextId: nat

    /** Every row is stored under its own id; the counter's next ids are unused. */
    ghost predicate Valid()
      reads this
    {
      && FreshFrom(rows, nextId)
      && forall id | id in rows :: rows[id].id == id
    }

    constructor()
      ensures Valid() && rows == map[] && nextId == 0
    {
      rows := map[];
      nextId := 0;
    }

    /** Lines 21-37: `create` inserts a service with no items. */
    method Create(orgId: string, name: string, date: Option<string>, now: int) returns (id: string)
      requires Valid()
      modifies this
      ensures Valid()
      ensures id !in old(rows)
      ensures rows == old(rows)[id := Service(id, now, orgId, name, date, [], now)]
    {
      id := IdOf(nextId);
      FreshAfterInsert(rows, nextId, Service(id, now, orgId, name, date, [], now));
      rows := rows[id := Service(id, now, orgId, name, date, [], now)];
      nextId := nextId + 1;
    }

    /** Lines 39-62: `addItem` appends one item, stamped with `now`. */
    method AddItem(serviceId: string, kind: ItemType, refId: string, itemLabel: Option<string>, now: int)
      returns (r: Result<string, ServiceError>)
      requires Valid()
      modifies this
      ensures Valid() && nextId == old(nextId)
      ensures serviceId !in old(rows) ==> r == Failure(ServiceNotFound) && rows == old(rows)
      ensures serviceId in old(rows) ==> (r == Success(serviceId) &&
        rows == old(rows)[serviceId := old(rows)[serviceId].(items := old(rows)[serviceId].items + [ServiceItem(kind, refId, itemLabel, now)])])
    {
      if serviceId !in rows {
        return Failure(ServiceNotFound);
      }
      var service := rows[serviceId];
      var newItem := ServiceItem(kind, refId, itemLabel, now);
      rows := rows[serviceId := service.(items := service.items + [newItem])];
      r := Success(serviceId);
    }

    /** Lines 64-79: `removeItem` splices one item out of a copy of the list. */
    method RemoveItem(serviceId: string, itemIndex: int) returns (r: Result<string, ServiceError>)
      requires Valid()
      modifies this
      ensures Valid() && nextId == old(nextId)
      ensures serviceId !in old(rows) ==> r == Failure(ServiceNotFound) && rows == old(rows)
      ensures serviceId in old(rows) ==> (r == Success(serviceId) &&
        rows == old(rows)[serviceId := old(rows)[serviceId].(items := RemovedItem(old(rows)[serviceId].items, itemIndex))])
    {
      if serviceId !in rows {
        return Failure(ServiceNotFound);
      }
      var service := rows[serviceId];
      var items := service.items;
      items := SpliceOut(items, itemIndex).0;
      rows := rows[serviceId := service.(items := items)];
      r := Success(serviceId);
    }

    /** Lines 81-98: `reorderItems` splices an item out and back in at `toIndex`. */
    method ReorderItems(serviceId: string, fromIndex: int, toIndex: int) returns (r: Result<string, ServiceError>)
      requires Valid()
      modifies this
      ensures Valid() && nextId == old(nextId)
      ensures serviceId !in old(rows) ==> r == Failure(ServiceNotFound) && rows == old(rows)
      ensures serviceId in old(rows) && Reordered(old(rows)[serviceId].items, fromIndex, toIndex).None? ==>
        r == Failure(UndefinedItem) && rows == old(rows)
      ensures serviceId in old(rows) && Reordered(old(rows)[serviceId].items, fromIndex, toIndex).Some? ==>
        r == Success(serviceId) &&
        rows == old(rows)[serviceId := old(rows)[serviceId].(items := Reordered(old(rows)[serviceId].items, fromIndex, toIndex).value)]
    {
      if serviceId !in rows {
        return Failure(ServiceNotFound);
      }
      var service := rows[serviceId];
      var items := service.items;
      var (rest, removed) := SpliceOut(items, fromIndex);
      items := rest;
      if removed.None? {
        return Failure(UndefinedItem);
      }
      items := SpliceIn(items, toIndex, removed.value);
      rows := rows[serviceId := service.(items := items)];
      r := Success(serviceId);
    }

    /** Lines 100-117: `update` patches the name and the date that are given. */
    method Update(serviceId: string, name: Option<string>, date: Option<string>) returns (r: Result<string, ServiceError>)
      requires Valid()
      modifies this
      ensures Valid() && nextId == old(nextId)
      ensures serviceId !in old(rows) ==> r == Failure(ServiceNotFound) && rows == old(rows)
      ensures serviceId in old(rows) ==> (r == Success(serviceId) &&
        var s := old(rows)[serviceId];
        rows == old(rows)[serviceId := s.(name := name.GetOr(s.name), date := if date.Some? then date else s.date)])
    {
      if serviceId !in rows {
        return Failure(ServiceNotFound);
      }
      var service := rows[serviceId];
      if name.Some? {
        service := service.(name := name.value);
      }
      if date.Some? {
        service := service.(date := date);
      }
      rows := rows[serviceId := service];
      r := Success(serviceId);
    }

    /** Lines 119-132: `rename` */
    method Rename(serviceId: string, name: string) returns (r: Result<string, ServiceError>)
      requires Valid()
      modifies this
      ensures Valid() && nextId == old(nextId)
      ensures serviceId !in old(rows) ==> r == Failure(ServiceNotFound) && rows == old(rows)
      ensures serviceId in old(rows) ==> (r == Success(serviceId) &&
        rows == old(rows)[serviceId := old(rows)[serviceId].(name := name)])
    {
      if serviceId !in rows {
        return Failure(ServiceNotFound);
      }
      rows := rows[serviceId := rows[serviceId].(name := name)];
      r := Success(serviceId);
    }

    /** Lines 134-139: `remove` deletes the row; deleting a missing row throws. */
    method Remove(serviceId: string) returns (r: Result<(), ServiceError>)
      requires Valid()
      modifies this
      ensures Valid() && nextId == old(nextId)
      ensures serviceId !in old(rows) ==> r == Failure(MissingDocument) && rows == old(rows)
      ensures serviceId in old(rows) ==> r == Success(()) && rows == old(rows) - {serviceId}
    {
      if serviceId !in rows {
        return Failure(MissingDocument);
      }
      rows := rows - {serviceId};
      r := Success(());
    }
  }

  /** `update` with `rename`'s argument alone is `rename`. */
  lemma UpdateNameIsRename(s: Service, name: string)
    ensures s.(name := Some(name).GetOr(s.name), date := s.date) == s.(name := name)
  {
  }
}
