/** One incremental sync (src/decision_system/connectors/sync_runner.py): the remote items are
    compared with the stored state, the differences go to the evidence store, and what is gone
    from the remote is marked and archived. */
module SyncRuns {
  import opened Prelude
  import opened Contents
  import opened SyncState
  import opened DataSources
  import opened EvidenceBridge
  import opened Schedules

  /** How a fetched item compares with the state before the sync. */
  function StatusFor(prev: Option<SyncItem>, hash: Hash): SyncState.Status {
    if prev.None? then New
    else if prev.value.hash != Some(hash) then Changed
    else SyncState.Unchanged
  }

  /** The content that a sync sees for an id; contents without an id are passed over. */
  function Seen(contents: seq<Content>, id: string): Option<Content> {
    if |id| == 0 then None else ContentFor(contents, id)
  }

  /** The state of an id after a sync, from its state before and what the sync saw of it. */
  function NextItem(prev: Option<SyncItem>, id: string, seen: Option<Content>, codec: Codec): Option<SyncItem> {
    if seen.Some? then
      var hash := HashOf(codec, seen.value);
      Some(SyncItem(id, Some(hash), StatusFor(prev, hash)))
    else if prev.Some? then Some(SyncItem(id, prev.value.hash, DeletedRemote))
    else None
  }

  /** The whole list after a sync: one entry per id, each as `NextItem` says. */
  ghost predicate Synced(before: seq<SyncItem>, contents: seq<Content>, codec: Codec, after: seq<SyncItem>) {
    && UniqueIds(after)
    && forall id :: Lookup(after, id) == NextItem(Lookup(before, id), id, Seen(contents, id), codec)
  }

  /** The ids that were live before and are not among the contents, in list order. */
  function Gone(before: seq<SyncItem>, contents: seq<Content>): seq<string> {
    if before == [] then []
    else
      var item := before[|before| - 1];
      Gone(before[..|before| - 1], contents)
      + if Seen(contents, item.externalId).None? && item.status != DeletedRemote then [item.externalId] else []
  }

  /** How many contents compare in the given way; one without an id does not count. */
  function CountStatus(before: seq<SyncItem>, contents: seq<Content>, codec: Codec, status: SyncState.Status): nat {
    if contents == [] then 0
    else
      var c := contents[|contents| - 1];
      CountStatus(before, contents[..|contents| - 1], codec, status)
      + if |c.externalId| > 0 && StatusFor(Lookup(before, c.externalId), HashOf(codec, c)) == status then 1 else 0
  }

  /** Contents with an id whose entry is absent, has another hash, or has the same hash. */
  ghost function NewTo(before: seq<SyncItem>): Content -> bool {
    (c: Content) => |c.externalId| > 0 && Lookup(before, c.externalId).None?
  }

  ghost function ChangedFrom(before: seq<SyncItem>, codec: Codec): Content -> bool {
    (c: Content) => |c.externalId| > 0 && Lookup(before, c.externalId).Some? && Lookup(before, c.externalId).value.hash != Some(HashOf(codec, c))
  }

  ghost function SameAs(before: seq<SyncItem>, codec: Codec): Content -> bool {
    (c: Content) => |c.externalId| > 0 && Lookup(before, c.externalId).Some? && Lookup(before, c.externalId).value.hash == Some(HashOf(codec, c))
  }

  /** What the three counts of a sync count. */
  lemma {:induction false} CountsTell(before: seq<SyncItem>, contents: seq<Content>, codec: Codec)
    ensures CountStatus(before, contents, codec, New) == Number(contents, NewTo(before))
    ensures CountStatus(before, contents, codec, Changed) == Number(contents, ChangedFrom(before, codec))
    ensures CountStatus(before, contents, codec, SyncState.Unchanged) == Number(contents, SameAs(before, codec))
  {
    hide Number, Lookup, HashOf;
    if contents == [] {
      NoneHas(NewTo(before));
      NoneHas(ChangedFrom(before, codec));
      NoneHas(SameAs(before, codec));
    } else {
      CountsTell(before, contents[..|contents| - 1], codec);
      NumberNext(contents, NewTo(before));
      NumberNext(contents, ChangedFrom(before, codec));
      NumberNext(contents, SameAs(before, codec));
    }
  }

  function WithIds(contents: seq<Content>): seq<Content> {
    if contents == [] then []
    else
      var c := contents[|contents| - 1];
      WithIds(contents[..|contents| - 1]) + if |c.externalId| > 0 then [c] else []
  }

  /** Archiving: for each id the first source that carries it, of whatever connector. */
  function ArchiveOne(l: seq<DataSource>, id: string): seq<DataSource> {
    var ds := FirstWith(l, EXTERNAL, id);
    if ds.Some? && ds.value.status != Archived
    then Put(l, DataSource(ds.value.id, ds.value.name, ds.value.hash, Archived, ds.value.metadata))
    else l
  }

  function ArchiveAll(l: seq<DataSource>, ids: seq<string>): seq<DataSource> {
    if ids == [] then l else ArchiveOne(ArchiveAll(l, ids[..|ids| - 1]), ids[|ids| - 1])
  }

  /** What the bridge leaves in the evidence store: it runs only if some item is new or changed, and
      if there is a workspace. */
  function Reindexed(p: Pass, before: seq<SyncItem>, contents: seq<Content>, codec: Codec, scope: Scope): Pass {
    var reindex := CountStatus(before, contents, codec, New) > 0 || CountStatus(before, contents, codec, Changed) > 0;
    if |scope.workspace| > 0 && reindex
    then PersistAll(Pass(p.sources, p.dirs, p.next, None), WithIds(contents), codec, scope.connector, scope.workspace)
    else p
  }

  /** What a sync leaves in the evidence store; archiving, too, needs a workspace. */
  function NextEvidenceStore(p: Pass, before: seq<SyncItem>, contents: seq<Content>, codec: Codec, scope: Scope): Pass {
    var q := Reindexed(p, before, contents, codec, scope);
    Pass(if |scope.workspace| > 0 then ArchiveAll(q.sources, Gone(before, contents)) else q.sources, q.dirs, q.next, None)
  }

  /** What the remote end has in store for one sync. */
  datatype Attempt = Attempt(configured: bool, fetched: Option<seq<Content>>, completedAt: int)

  datatype SyncResult =
    | SyncFailed
    | SyncCompleted(isNew: nat, changed: nat, same: nat, deletedIds: seq<string>)

  /** The result of a sync says how many contents with an id are new, changed and the same, and what is
      gone. */
  ghost function Reported(before: seq<SyncItem>, contents: seq<Content>, codec: Codec): SyncResult {
    SyncCompleted(Number(contents, NewTo(before)), Number(contents, ChangedFrom(before, codec)),
                  Number(contents, SameAs(before, codec)), Gone(before, contents))
  }

  // ------------------------------------------------------------------
  // The two loops over the state list

  /** The list after the first `n` contents have been marked as seen. */
  ghost predicate Marked(before: seq<SyncItem>, contents: seq<Content>, codec: Codec, items: seq<SyncItem>) {
    && UniqueIds(items)
    && forall id :: Lookup(items, id) ==
         if Seen(contents, id).Some? then NextItem(Lookup(before, id), id, Seen(contents, id), codec) else Lookup(before, id)
  }

  lemma SeenAppend(contents: seq<Content>, c: Content, id: string)
    ensures Seen(contents + [c], id) == if |id| > 0 && c.externalId == id then Some(c) else Seen(contents, id)
  {
    assert (contents + [c])[..|contents|] == contents;
  }

  lemma MarkedStep(before: seq<SyncItem>, contents: seq<Content>, c: Content, codec: Codec,
                   items: seq<SyncItem>, items': seq<SyncItem>)
    requires Marked(before, contents, codec, items)
    requires if |c.externalId| == 0 then items' == items
             else Sets(items, items', SyncItem(c.externalId, Some(HashOf(codec, c)),
                                               StatusFor(Lookup(before, c.externalId), HashOf(codec, c))))
    ensures Marked(before, contents + [c], codec, items')
  {
    hide HashOf, Lookup, Seen, StatusFor;
    forall id ensures Lookup(items', id) ==
      if Seen(contents + [c], id).Some? then NextItem(Lookup(before, id), id, Seen(contents + [c], id), codec) else Lookup(before, id)
    {
      SeenAppend(contents, c, id);
    }
  }

  /** The list after the first `m` entries have been checked for being gone. */
  ghost predicate Swept(before: seq<SyncItem>, contents: seq<Content>, codec: Codec, m: nat, items: seq<SyncItem>)
    requires m <= |before|
  {
    && UniqueIds(items)
    && forall id :: Lookup(items, id) ==
         if Seen(contents, id).Some? || Lookup(before[..m], id).Some?
         then NextItem(Lookup(before, id), id, Seen(contents, id), codec) else Lookup(before, id)
  }

  lemma PrefixLookup(before: seq<SyncItem>, m: nat, id: string)
    requires UniqueIds(before) && m < |before|
    ensures Lookup(before[..m + 1], id) == if id == before[m].externalId then Some(before[m]) else Lookup(before[..m], id)
    ensures Lookup(before, before[m].externalId) == Some(before[m])
    ensures Lookup(before[..m], before[m].externalId).None?
  {
    assert before[..m + 1] == before[..m] + [before[m]];
    LookupAppend(before[..m], before[m], id);
    LookupNone(before[..m], before[m].externalId);
    LookupAt(before, m);
  }

  lemma SweptStep(before: seq<SyncItem>, contents: seq<Content>, codec: Codec, m: nat, items: seq<SyncItem>, items': seq<SyncItem>)
    requires UniqueIds(before) && m < |before| && Swept(before, contents, codec, m, items)
    requires var item := before[m];
             if Seen(contents, item.externalId).None? && item.status != DeletedRemote
             then Sets(items, items', SyncItem(item.externalId, item.hash, DeletedRemote))
             else items' == items
    ensures Swept(before, contents, codec, m + 1, items')
  {
    hide HashOf, Lookup, Seen, StatusFor;
    var item := before[m];
    forall id ensures Lookup(items', id) ==
      if Seen(contents, id).Some? || Lookup(before[..m + 1], id).Some?
      then NextItem(Lookup(before, id), id, Seen(contents, id), codec) else Lookup(before, id)
    {
      PrefixLookup(before, m, id);
    }
  }

  lemma SweptAll(before: seq<SyncItem>, contents: seq<Content>, codec: Codec, items: seq<SyncItem>)
    requires Swept(before, contents, codec, |before|, items)
    ensures Synced(before, contents, codec, items)
  {
    assert before[..|before|] == before;
  }

  lemma MarkedIsSwept(before: seq<SyncItem>, contents: seq<Content>, codec: Codec, items: seq<SyncItem>)
    requires Marked(before, contents, codec, items)
    ensures Swept(before, contents, codec, 0, items)
  {
  }

  class SyncRunner {
    const codec: Codec
    const syncStore: SyncStateStore
    const scheduleStore: ScheduleStore
    const sources: DataSourceStore

    ghost predicate Valid()
      reads syncStore, scheduleStore, sources
    {
      syncStore.Valid() && scheduleStore.Valid() && sources.Valid()
    }

    constructor (codec: Codec, syncStore: SyncStateStore, scheduleStore: ScheduleStore, sources: DataSourceStore)
      requires syncStore.Valid() && scheduleStore.Valid() && sources.Valid()
      ensures Valid()
      ensures this.codec == codec && this.syncStore == syncStore
      ensures this.scheduleStore == scheduleStore && this.sources == sources
    {
      this.codec, this.syncStore, this.scheduleStore, this.sources := codec, syncStore, scheduleStore, sources;
    }

    /** Marks the fetched contents as seen. */
    method MarkContents(scope: Scope, contents: seq<Content>)
      returns (seenIds: set<string>, isNew: nat, changed: nat, same: nat)
      requires syncStore.Valid()
      modifies syncStore
      ensures syncStore.Valid()
      ensures Marked(old(syncStore.Items(scope)), contents, codec, syncStore.Items(scope))
      ensures forall s :: s != scope ==> syncStore.Items(s) == old(syncStore.Items(s))
      ensures forall id :: id in seenIds <==> Seen(contents, id).Some?
      ensures isNew == CountStatus(old(syncStore.Items(scope)), contents, codec, New)
      ensures changed == CountStatus(old(syncStore.Items(scope)), contents, codec, Changed)
      ensures same == CountStatus(old(syncStore.Items(scope)), contents, codec, SyncState.Unchanged)
    {
      hide HashOf, StatusFor, Lookup, Marked, Sets, Seen, CountStatus;
      var prev := syncStore.Items(scope);
      seenIds, isNew, changed, same := {}, 0, 0, 0;
      NothingMarked(prev, codec);
      assert contents[..0] == [];
      for n := 0 to |contents|
        invariant syncStore.Valid()
        invariant Marked(prev, contents[..n], codec, syncStore.Items(scope))
        invariant forall s :: s != scope ==> syncStore.Items(s) == old(syncStore.Items(s))
        invariant forall id :: id in seenIds <==> Seen(contents[..n], id).Some?
        invariant isNew == CountStatus(prev, contents[..n], codec, New)
        invariant changed == CountStatus(prev, contents[..n], codec, Changed)
        invariant same == CountStatus(prev, contents[..n], codec, SyncState.Unchanged)
      {
        var c := contents[n];
        assert contents[..n + 1] == contents[..n] + [c];
        MoreContents(prev, contents[..n], c, codec);
        ghost var items := syncStore.Items(scope);
        if |c.externalId| > 0 {
          seenIds := seenIds + {c.externalId};
          var hash := HashOf(codec, c);
          var status := StatusFor(Lookup(prev, c.externalId), hash);
          match status {
            case New => isNew := isNew + 1;
            case Changed => changed := changed + 1;
            case _ => same := same + 1;
          }
          assert status in {New, Changed, SyncState.Unchanged} by { ThreeWays(Lookup(prev, c.externalId), hash); }
          var item := syncStore.MarkSeen(scope, c.externalId, Some(hash), status);
        }
        MarkedStep(prev, contents[..n], c, codec, items, syncStore.Items(scope));
      }
      assert contents[..|contents|] == contents;
    }

    lemma NothingMarked(prev: seq<SyncItem>, codec: Codec)
      requires UniqueIds(prev)
      ensures Marked(prev, [], codec, prev)
      ensures forall id :: Seen([], id).None?
      ensures forall status :: CountStatus(prev, [], codec, status) == 0
    {
    }

    lemma MoreContents(prev: seq<SyncItem>, contents: seq<Content>, c: Content, codec: Codec)
      ensures forall id :: Seen(contents + [c], id) == if |id| > 0 && c.externalId == id then Some(c) else Seen(contents, id)
      ensures forall status :: CountStatus(prev, contents + [c], codec, status) == CountStatus(prev, contents, codec, status)
                + if |c.externalId| > 0 && StatusFor(Lookup(prev, c.externalId), HashOf(codec, c)) == status then 1 else 0
    {
      hide HashOf, StatusFor, Lookup;
      assert (contents + [c])[..|contents|] == contents;
    }

    lemma ThreeWays(prev: Option<SyncItem>, hash: Hash)
      ensures StatusFor(prev, hash) in {New, Changed, SyncState.Unchanged}
    {
    }

    /** Marks what was live before and has not been seen as deleted at the remote end. */
    method SweepGone(scope: Scope, prev: seq<SyncItem>, contents: seq<Content>, seenIds: set<string>)
      returns (deletedIds: seq<string>)
      requires syncStore.Valid() && UniqueIds(prev)
      requires Marked(prev, contents, codec, syncStore.Items(scope))
      requires forall id :: id in seenIds <==> Seen(contents, id).Some?
      modifies syncStore
      ensures syncStore.Valid()
      ensures Synced(prev, contents, codec, syncStore.Items(scope))
      ensures forall s :: s != scope ==> syncStore.Items(s) == old(syncStore.Items(s))
      ensures deletedIds == Gone(prev, contents)
    {
      hide HashOf, StatusFor, Marked;
      deletedIds := [];
      MarkedIsSwept(prev, contents, codec, syncStore.Items(scope));
      hide Swept, Seen, Lookup;
      for m := 0 to |prev|
        invariant syncStore.Valid()
        invariant Swept(prev, contents, codec, m, syncStore.Items(scope))
        invariant forall s :: s != scope ==> syncStore.Items(s) == old(syncStore.Items(s))
        invariant deletedIds == Gone(prev[..m], contents)
      {
        var item := prev[m];
        ghost var items := syncStore.Items(scope);
        assert prev[..m + 1][..m] == prev[..m];
        if item.externalId !in seenIds && item.status != DeletedRemote {
          StillThere(prev, contents, codec, m, items);
          var marked := syncStore.MarkDeletedRemote(scope, item.externalId);
          deletedIds := deletedIds + [item.externalId];
        }
        SweptStep(prev, contents, codec, m, items, syncStore.Items(scope));
      }
      assert prev[..|prev|] == prev;
      SweptAll(prev, contents, codec, syncStore.Items(scope));
    }

    /** An entry that is about to be marked still has its old value. */
    lemma StillThere(prev: seq<SyncItem>, contents: seq<Content>, codec: Codec, m: nat, items: seq<SyncItem>)
      requires UniqueIds(prev) && m < |prev| && Swept(prev, contents, codec, m, items)
      requires Seen(contents, prev[m].externalId).None?
      ensures Lookup(items, prev[m].externalId) == Some(prev[m])
    {
      PrefixLookup(prev, m, prev[m].externalId);
    }

    /** Archives the sources of the ids that are gone. */
    method ArchiveGone(ids: seq<string>)
      requires sources.Valid()
      modifies sources`index, sources`records
      ensures sources.Valid() && sources.Sources() == ArchiveAll(old(sources.Sources()), ids)
    {
      hide Put, FirstWith, Listing;
      for n := 0 to |ids|
        invariant sources.Valid() && sources.Sources() == ArchiveAll(old(sources.Sources()), ids[..n])
      {
        assert ids[..n + 1][..n] == ids[..n];
        var ds := sources.FindByMetadata(EXTERNAL, ids[n]);
        if ds.Some? && ds.value.status != Archived {
          FirstWithBound(sources, EXTERNAL, ids[n]);
          sources.Save(DataSource(ds.value.id, ds.value.name, ds.value.hash, Archived, ds.value.metadata));
        }
      }
      assert ids[..|ids|] == ids;
    }

    /** Passes on the contents that have an id. */
    method KeepWithIds(contents: seq<Content>, seenIds: set<string>) returns (kept: seq<Content>)
      requires forall id :: id in seenIds <==> Seen(contents, id).Some?
      ensures kept == WithIds(contents)
    {
      kept := [];
      for n := 0 to |contents|
        invariant kept == WithIds(contents[..n])
      {
        assert contents[..n + 1][..n] == contents[..n];
        SeenSelf(contents, n);
        if contents[n].externalId in seenIds {
          kept := kept + [contents[n]];
        }
      }
      assert contents[..|contents|] == contents;
    }

    /** One sync. When the configuration is missing or fetching raises, nothing is changed; else
        the state list, the schedule and the evidence store go where the specification says. */
    method SyncConnector(scope: Scope, configured: bool, fetched: Option<seq<Content>>, completedAt: int)
      returns (result: SyncResult)
      requires Valid() && (|scope.workspace| > 0 ==> sources.workspaceId == scope.workspace)
      modifies syncStore, scheduleStore, sources
      ensures Valid()
      ensures result.SyncFailed? <==> !configured || fetched.None?
      ensures result.SyncFailed? ==> syncStore.files == old(syncStore.files) && scheduleStore.files == old(scheduleStore.files)
                                     && Store() == old(Store())
      ensures forall s :: s != scope ==> syncStore.Items(s) == old(syncStore.Items(s))
      ensures forall s :: s != scope ==> scheduleStore.Schedules(s) == old(scheduleStore.Schedules(s))
      ensures result.SyncCompleted? ==>
                && Synced(old(syncStore.Items(scope)), fetched.value, codec, syncStore.Items(scope))
                && result == Reported(old(syncStore.Items(scope)), fetched.value, codec)
                && scheduleStore.Schedules(scope) == Completed(old(scheduleStore.Schedules(scope)), completedAt)
                && EvidenceFollows(old(Store()), old(syncStore.Items(scope)), fetched.value, scope, Store())
    {
      hide Synced, Marked, Lookup, AllCached, Listing, CountStatus, PersistAll, ArchiveAll, Gone, WithIds, Seen, Completed,
        NewTo, ChangedFrom, SameAs, Number;
      if !configured || fetched.None? {
        return SyncFailed;
      }
      var contents := fetched.value;
      var prev := syncStore.Items(scope);
      assert UniqueIds(prev);
      ghost var before := Store();
      var seenIds, isNew, changed, same := MarkContents(scope, contents);
      var deletedIds := SweepGone(scope, prev, contents, seenIds);
      scheduleStore.NoteRun(scope, completedAt);
      NothingToDo(prev, codec);
      CountsTell(prev, contents, codec);
      if |scope.workspace| > 0 && contents != [] && (isNew > 0 || changed > 0) {
        var kept := KeepWithIds(contents, seenIds);
        var saved := PersistConnectorContent(sources, kept, codec, scope.connector);
      }
      if |deletedIds| > 0 && |scope.workspace| > 0 {
        ArchiveGone(deletedIds);
      }
      result := SyncCompleted(isNew, changed, same, deletedIds);
    }

    lemma NothingToDo(prev: seq<SyncItem>, codec: Codec)
      ensures CountStatus(prev, [], codec, New) == 0 && CountStatus(prev, [], codec, Changed) == 0
      ensures forall l :: ArchiveAll(l, []) == l
    {
    }

    /** The evidence store as a pass works on it. */
    ghost function Store(): Pass
      reads sources
    {
      Pass(sources.Sources(), sources.dirs, sources.nextSource, None)
    }

    ghost predicate EvidenceFollows(p: Pass, before: seq<SyncItem>, contents: seq<Content>, scope: Scope, q: Pass) {
      q == NextEvidenceStore(p, before, contents, codec, scope)
    }
  }

  /** The source that a search finds is under an id that has been drawn. */
  lemma FirstWithBound(sources: DataSourceStore, key: string, value: string)
    requires sources.Valid() && FirstWith(sources.Sources(), key, value).Some?
    ensures FirstWith(sources.Sources(), key, value).value.id < sources.nextSource
  {
    StoreWellFormed(sources);
    var i := FirstWithIn(sources.Sources(), key, value);
  }

  lemma {:induction false} FirstWithIn(l: seq<DataSource>, key: string, value: string) returns (i: nat)
    requires FirstWith(l, key, value).Some?
    ensures i < |l| && FirstWith(l, key, value) == Some(l[i]) && Has(l[i], key, value)
    ensures forall k :: 0 <= k < i ==> !Has(l[k], key, value)
  {
    if Has(l[0], key, value) {
      i := 0;
    } else {
      i := FirstWithIn(l[1..], key, value);
      i := i + 1;
      assert forall k :: 1 <= k < i ==> l[k] == l[1..][k - 1];
    }
  }

  lemma {:induction false} SeenSelf(contents: seq<Content>, n: nat)
    requires n < |contents|
    ensures Seen(contents, contents[n].externalId).Some? <==> |contents[n].externalId| > 0
  {
    if n < |contents| - 1 {
      SeenSelf(contents[..|contents| - 1], n);
    }
  }
}
