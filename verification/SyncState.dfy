/** The per-item state of incremental sync (src/decision_system/connectors/sync_state.py): a list
    on file that stands for a map from external ids to their state. */
module SyncState {
  import opened Prelude
  import opened Contents

  datatype Status = New | Unchanged | Changed | DeletedRemote

  datatype SyncItem = SyncItem(externalId: string, hash: Option<Hash>, status: Status)

  /** The entry of an id: the first one in the list. */
  function Lookup(items: seq<SyncItem>, id: string): Option<SyncItem> {
    if items == [] then None
    else if items[0].externalId == id then Some(items[0])
    else Lookup(items[1..], id)
  }

  ghost predicate UniqueIds(items: seq<SyncItem>) {
    forall i, j :: 0 <= i < j < |items| ==> items[i].externalId != items[j].externalId
  }

  lemma {:induction false} LookupAt(items: seq<SyncItem>, i: nat)
    requires UniqueIds(items) && i < |items|
    ensures Lookup(items, items[i].externalId) == Some(items[i])
  {
    if i > 0 {
      assert items[1..][i - 1] == items[i];
      LookupAt(items[1..], i - 1);
    }
  }

  lemma {:induction false} LookupSome(items: seq<SyncItem>, id: string) returns (i: nat)
    requires Lookup(items, id).Some?
    ensures i < |items| && items[i].externalId == id && Lookup(items, id) == Some(items[i])
    ensures forall k :: 0 <= k < i ==> items[k].externalId != id
  {
    if items[0].externalId == id {
      i := 0;
    } else {
      var j := LookupSome(items[1..], id);
      i := j + 1;
      assert forall k :: 1 <= k < i ==> items[k] == items[1..][k - 1];
    }
  }

  /** With unique ids the list stands for a map: an id is found with exactly the entry it has. */
  lemma LookupIff(items: seq<SyncItem>, item: SyncItem)
    requires UniqueIds(items)
    ensures Lookup(items, item.externalId) == Some(item) <==> item in items
  {
    if item in items {
      var i :| 0 <= i < |items| && items[i] == item;
      LookupAt(items, i);
    } else if Lookup(items, item.externalId) == Some(item) {
      var i := LookupSome(items, item.externalId);
    }
  }

  lemma {:induction false} LookupUpdate(items: seq<SyncItem>, i: nat, item: SyncItem, id: string)
    requires UniqueIds(items) && i < |items| && items[i].externalId == item.externalId
    ensures UniqueIds(items[i := item])
    ensures Lookup(items[i := item], id) == if id == item.externalId then Some(item) else Lookup(items, id)
  {
    if i == 0 {
      assert items[0 := item][1..] == items[1..];
    } else {
      assert items[i := item][1..] == items[1..][i - 1 := item];
      assert items[1..][i - 1] == items[i];
      LookupUpdate(items[1..], i - 1, item, id);
    }
  }

  lemma {:induction false} LookupAppend(items: seq<SyncItem>, item: SyncItem, id: string)
    ensures Lookup(items + [item], id) ==
            if Lookup(items, id).Some? then Lookup(items, id) else if id == item.externalId then Some(item) else None
  {
    if items == [] {
      assert ([] + [item])[1..] == [];
    } else {
      assert (items + [item])[1..] == items[1..] + [item];
      LookupAppend(items[1..], item, id);
    }
  }

  lemma {:induction false} LookupNone(items: seq<SyncItem>, id: string)
    ensures Lookup(items, id).None? <==> forall i :: 0 <= i < |items| ==> items[i].externalId != id
  {
    if items != [] {
      LookupNone(items[1..], id);
      if items[0].externalId != id && Lookup(items, id).None? {
        forall i | 0 <= i < |items| ensures items[i].externalId != id {
          if i > 0 { assert items[i] == items[1..][i - 1]; }
        }
      }
    }
  }

  /** `after` stands for the map of `before` with one entry set. */
  ghost predicate Sets(before: seq<SyncItem>, after: seq<SyncItem>, item: SyncItem) {
    && UniqueIds(after)
    && forall id :: Lookup(after, id) == if id == item.externalId then Some(item) else Lookup(before, id)
  }

  class SyncStateStore {
    var files: map<Scope, seq<SyncItem>>

    ghost predicate Valid()
      reads this
    {
      forall s :: s in files ==> UniqueIds(files[s])
    }

    constructor ()
      ensures Valid() && files == map[]
    {
      files := map[];
    }

    function Items(scope: Scope): seq<SyncItem>
      reads this
    {
      if scope in files then files[scope] else []
    }

    method GetItem(scope: Scope, id: string) returns (item: Option<SyncItem>)
      ensures item == Lookup(Items(scope), id)
    {
      var items := Items(scope);
      for n := 0 to |items|
        invariant Lookup(items, id) == Lookup(items[n..], id)
      {
        if items[n].externalId == id {
          return Some(items[n]);
        }
      }
      item := None;
    }

    /** Replaces the entry of an id in place, or appends it. */
    method UpsertItem(scope: Scope, item: SyncItem)
      requires Valid()
      modifies this
      ensures Valid()
      ensures Sets(old(Items(scope)), Items(scope), item)
      ensures forall s :: s != scope ==> Items(s) == old(Items(s))
      ensures |Items(scope)| == |old(Items(scope))| + if Lookup(old(Items(scope)), item.externalId).None? then 1 else 0
      ensures forall i :: 0 <= i < |old(Items(scope))| ==> Items(scope)[i].externalId == old(Items(scope))[i].externalId
    {
      var items := Items(scope);
      ghost var before := items;
      assert UniqueIds(before);
      LookupNone(before, item.externalId);
      var found := false;
      for n := 0 to |items|
        invariant !found && items == before
        invariant forall i :: 0 <= i < n ==> before[i].externalId != item.externalId
      {
        if items[n].externalId == item.externalId {
          forall id ensures Lookup(before[n := item], id) == if id == item.externalId then Some(item) else Lookup(before, id) {
            LookupUpdate(before, n, item, id);
          }
          LookupUpdate(before, n, item, item.externalId);
          items := items[n := item];
          found := true;
          break;
        }
      }
      if !found {
        forall id ensures Lookup(before + [item], id) == if id == item.externalId then Some(item) else Lookup(before, id) {
          LookupAppend(before, item, id);
        }
        items := items + [item];
      }
      files := files[scope := items];
    }

    /** Notes that an item was seen: a hash is taken over unless it is empty. */
    method MarkSeen(scope: Scope, id: string, hash: Option<Hash>, status: Status) returns (item: SyncItem)
      requires Valid()
      modifies this
      ensures Valid()
      ensures var before := Lookup(old(Items(scope)), id);
              item == SyncItem(id, if before.None? || hash.Some? then hash else before.value.hash, status)
      ensures Sets(old(Items(scope)), Items(scope), item)
      ensures forall s :: s != scope ==> Items(s) == old(Items(s))
    {
      var before := GetItem(scope, id);
      if before.None? {
        item := SyncItem(id, hash, status);
      } else {
        ghost var i := LookupSome(Items(scope), id);
        item := SyncItem(before.value.externalId, if hash.Some? then hash else before.value.hash, status);
      }
      UpsertItem(scope, item);
    }

    /** Marks a tracked item as gone; an unknown id is left alone. */
    method MarkDeletedRemote(scope: Scope, id: string) returns (item: Option<SyncItem>)
      requires Valid()
      modifies this
      ensures Valid()
      ensures var before := Lookup(old(Items(scope)), id);
              if before.None? then item.None? && files == old(files)
              else item == Some(SyncItem(id, before.value.hash, DeletedRemote))
                   && Sets(old(Items(scope)), Items(scope), item.value)
      ensures forall s :: s != scope ==> Items(s) == old(Items(s))
    {
      item := GetItem(scope, id);
      if item.None? {
        return;
      }
      ghost var i := LookupSome(Items(scope), id);
      item := Some(SyncItem(item.value.externalId, item.value.hash, DeletedRemote));
      UpsertItem(scope, item.value);
    }
  }
}
