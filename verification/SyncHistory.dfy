/** Runs of syncs of one connector, over any sequence of remote snapshots
    (src/decision_system/connectors/sync_runner.py). */
module SyncHistory {
  import opened Prelude
  import opened Contents
  import opened Chunking
  import opened SyncState
  import opened DataSources
  import opened EvidenceBridge
  import opened EvidenceHistory
  import opened SyncRuns

  /** The stores that a sync of one connector works on. */
  datatype World = World(items: seq<SyncItem>, store: Pass)

  /** A successful sync: what `SyncRunner.SyncConnector` ensures of its two stores. */
  ghost predicate SyncStep(w: World, contents: seq<Content>, codec: Codec, scope: Scope, w': World) {
    Synced(w.items, contents, codec, w'.items) && w'.store == NextEvidenceStore(w.store, w.items, contents, codec, scope)
  }

  /** A sync that is run for another connector, or outside the workspace: with the state list it found and
      what it fetched. */
  datatype OtherSync = OtherSync(scope: Scope, before: seq<SyncItem>, contents: seq<Content>)

  ghost function AfterOthers(p: Pass, others: seq<OtherSync>, codec: Codec): Pass {
    if others == [] then p
    else
      var o := others[|others| - 1];
      NextEvidenceStore(AfterOthers(p, others[..|others| - 1], codec), o.before, o.contents, codec, o.scope)
  }

  /** Any number of successful syncs of one connector, starting without state; before each of them other
      connectors may have been synced any number of times. */
  ghost predicate SyncRun(worlds: seq<World>, between: seq<seq<OtherSync>>, snapshots: seq<seq<Content>>, codec: Codec, scope: Scope) {
    && |worlds| == |snapshots| + 1 && |between| == |snapshots|
    && worlds[0].items == []
    && forall i :: 0 <= i < |snapshots| ==> SyncStep(Begun(worlds, between, codec, i), snapshots[i], codec, scope, worlds[i + 1])
  }

  /** What the `i`-th sync finds. */
  ghost function Begun(worlds: seq<World>, between: seq<seq<OtherSync>>, codec: Codec, i: int): World
    requires 0 <= i < |worlds| && i < |between|
  {
    World(worlds[i].items, AfterOthers(worlds[i].store, between[i], codec))
  }

  /** An attempt to sync some connector. */
  datatype Turn = Turn(scope: Scope, attempt: Attempt)

  /** The snapshots of the attempts for one connector that succeed. */
  ghost function Snapshots(turns: seq<Turn>, scope: Scope): seq<seq<Content>> {
    if turns == [] then []
    else
      var t := turns[|turns| - 1];
      Snapshots(turns[..|turns| - 1], scope)
      + if t.scope == scope && t.attempt.configured && t.attempt.fetched.Some? then [t.attempt.fetched.value] else []
  }

  ghost predicate OfOthers(others: seq<OtherSync>, scope: Scope) {
    forall k :: 0 <= k < |others| ==> others[k].scope != scope
  }

  /** Syncs of several connectors, one after the other, are such a run for each of them; the attempts that
      fail leave no trace in it. */
  method SyncRepeatedly(runner: SyncRunner, scope: Scope, turns: seq<Turn>)
    returns (ghost worlds: seq<World>, ghost between: seq<seq<OtherSync>>, ghost later: seq<OtherSync>)
    requires runner.Valid() && (|scope.workspace| > 0 ==> runner.sources.workspaceId == scope.workspace)
    requires forall n :: 0 <= n < |turns| && |turns[n].scope.workspace| > 0 ==> runner.sources.workspaceId == turns[n].scope.workspace
    requires runner.syncStore.Items(scope) == []
    modifies runner.syncStore, runner.scheduleStore, runner.sources
    ensures runner.Valid()
    ensures SyncRun(worlds, between, Snapshots(turns, scope), runner.codec, scope)
    ensures worlds[0] == World([], old(runner.Store()))
    ensures worlds[|worlds| - 1].items == runner.syncStore.Items(scope)
    ensures AfterOthers(worlds[|worlds| - 1].store, later, runner.codec) == runner.Store()
    ensures OfOthers(later, scope) && forall i :: 0 <= i < |between| ==> OfOthers(between[i], scope)
  {
    hide Synced, NextEvidenceStore, SyncRunner.Valid, AfterOthers, OfOthers;
    worlds, between, later := [World(runner.syncStore.Items(scope), runner.Store())], [], [];
    NoOthers(runner.Store(), runner.codec, scope);
    for n := 0 to |turns|
      invariant runner.Valid()
      invariant SyncRun(worlds, between, Snapshots(turns[..n], scope), runner.codec, scope)
      invariant worlds[0] == World([], old(runner.Store()))
      invariant worlds[|worlds| - 1].items == runner.syncStore.Items(scope)
      invariant AfterOthers(worlds[|worlds| - 1].store, later, runner.codec) == runner.Store()
      invariant OfOthers(later, scope) && forall i :: 0 <= i < |between| ==> OfOthers(between[i], scope)
    {
      var t, a := turns[n], turns[n].attempt;
      assert turns[..n + 1][..n] == turns[..n];
      ghost var found := runner.syncStore.Items(t.scope);
      var result := runner.SyncConnector(t.scope, a.configured, a.fetched, a.completedAt);
      if result.SyncCompleted? {
        if t.scope == scope {
          ghost var w := World(runner.syncStore.Items(scope), runner.Store());
          OneMoreSync(worlds, between, Snapshots(turns[..n], scope), runner.codec, scope, later, a.fetched.value, w);
          worlds, between, later := worlds + [w], between + [later], [];
          NoOthers(runner.Store(), runner.codec, scope);
        } else {
          ghost var o := OtherSync(t.scope, found, a.fetched.value);
          OneMoreOther(worlds[|worlds| - 1].store, later, o, runner.codec, scope);
          later := later + [o];
        }
      }
    }
    assert turns[..|turns|] == turns;
  }

  lemma NoOthers(p: Pass, codec: Codec, scope: Scope)
    ensures AfterOthers(p, [], codec) == p && OfOthers([], scope)
  {
  }

  lemma OneMoreOther(p: Pass, others: seq<OtherSync>, o: OtherSync, codec: Codec, scope: Scope)
    ensures AfterOthers(p, others + [o], codec) == NextEvidenceStore(AfterOthers(p, others, codec), o.before, o.contents, codec, o.scope)
    ensures OfOthers(others, scope) && o.scope != scope ==> OfOthers(others + [o], scope)
  {
    hide NextEvidenceStore;
    assert (others + [o])[..|others|] == others;
  }

  lemma OneMoreSync(worlds: seq<World>, between: seq<seq<OtherSync>>, snapshots: seq<seq<Content>>, codec: Codec, scope: Scope,
                    others: seq<OtherSync>, contents: seq<Content>, w: World)
    requires SyncRun(worlds, between, snapshots, codec, scope)
    requires var last := worlds[|worlds| - 1]; SyncStep(World(last.items, AfterOthers(last.store, others, codec)), contents, codec, scope, w)
    ensures SyncRun(worlds + [w], between + [others], snapshots + [contents], codec, scope)
  {
    hide SyncStep, AfterOthers;
    var worlds', between', snapshots' := worlds + [w], between + [others], snapshots + [contents];
    forall i | 0 <= i < |snapshots'| ensures SyncStep(Begun(worlds', between', codec, i), snapshots'[i], codec, scope, worlds'[i + 1]) {
      if i < |snapshots| {
        assert SyncStep(Begun(worlds, between, codec, i), snapshots[i], codec, scope, worlds[i + 1]);
        assert Begun(worlds', between', codec, i) == Begun(worlds, between, codec, i);
      }
    }
  }

  // ------------------------------------------------------------------
  // The state list

  /** The content of an id in the last snapshot that has it. */
  ghost function LastSeen(snapshots: seq<seq<Content>>, id: string): Option<Content> {
    if snapshots == [] then None
    else
      var seen := Seen(snapshots[|snapshots| - 1], id);
      if seen.Some? then seen else LastSeen(snapshots[..|snapshots| - 1], id)
  }

  /** After any sequence of successful syncs the list has exactly one entry for each id that was
      ever seen; its hash is that of the last snapshot with the id, and its status says deleted if
      and only if the latest snapshot does not have the id. An id that it has is new if no earlier
      snapshot had it, unchanged if its hash is that of the last one that had it, and changed otherwise.
      An id may occur several times in one snapshot: then its last content there counts. */
  lemma {:induction false} StateHistory(worlds: seq<World>, between: seq<seq<OtherSync>>, snapshots: seq<seq<Content>>, codec: Codec, scope: Scope, n: nat, id: string)
    requires SyncRun(worlds, between, snapshots, codec, scope) && n < |worlds|
    ensures UniqueIds(worlds[n].items)
    ensures Lookup(worlds[n].items, id).Some? <==> LastSeen(snapshots[..n], id).Some?
    ensures var item := Lookup(worlds[n].items, id);
            item.Some? ==>
              && item.value.externalId == id
              && item.value.hash == Some(HashOf(codec, LastSeen(snapshots[..n], id).value))
              && (item.value.status == DeletedRemote <==> Seen(snapshots[n - 1], id).None?)
    ensures n > 0 && Seen(snapshots[n - 1], id).Some? ==>
              var item, earlier := Lookup(worlds[n].items, id), LastSeen(snapshots[..n - 1], id);
              && item.Some?
              && (item.value.status == New <==> earlier.None?)
              && (item.value.status == SyncState.Unchanged <==>
                  earlier.Some? && HashOf(codec, earlier.value) == HashOf(codec, Seen(snapshots[n - 1], id).value))
              && (item.value.status == Changed <==>
                  earlier.Some? && HashOf(codec, earlier.value) != HashOf(codec, Seen(snapshots[n - 1], id).value))
  {
    hide HashOf, Seen;
    if n > 0 {
      StateHistory(worlds, between, snapshots, codec, scope, n - 1, id);
      assert SyncStep(Begun(worlds, between, codec, n - 1), snapshots[n - 1], codec, scope, worlds[n]);
      assert snapshots[..n][..n - 1] == snapshots[..n - 1];
    }
  }

  // ------------------------------------------------------------------
  // The evidence of an item

  /** What the evidence of an item should be: the hash and the text of its last change, and
      whether it has been gone since then. */
  datatype Record = Record(hash: Hash, text: string, archived: bool)

  /** One content of the item: an empty one, or one with the recorded hash, changes nothing. */
  function OneRecord(r: Option<Record>, c: Content, codec: Codec): Option<Record> {
    if IsEmpty(c) || (r.Some? && r.value.hash == HashOf(codec, c)) then r
    else Some(Record(HashOf(codec, c), TextOf(codec, c), false))
  }

  function FoldRecord(r: Option<Record>, contents: seq<Content>, codec: Codec): Option<Record> {
    if contents == [] then r
    else OneRecord(FoldRecord(r, contents[..|contents| - 1], codec), contents[|contents| - 1], codec)
  }

  /** One snapshot, with the contents it has for the item. */
  function NextRecord(r: Option<Record>, contents: seq<Content>, codec: Codec): Option<Record> {
    if contents != [] then FoldRecord(r, contents, codec)
    else if r.Some? then Some(Record(r.value.hash, r.value.text, true))
    else None
  }

  ghost function RecordOf(snapshots: seq<seq<Content>>, id: string, codec: Codec): Option<Record> {
    if snapshots == [] then None
    else NextRecord(RecordOf(snapshots[..|snapshots| - 1], id, codec), ContentsOf(snapshots[|snapshots| - 1], id), codec)
  }

  ghost predicate Matches(ev: Option<Evidence>, r: Option<Record>, workspace: string) {
    match r
    case None => ev.None?
    case Some(record) =>
      && ev.Some?
      && ev.value.source.hash == record.hash
      && (ev.value.source.status == Archived <==> record.archived)
      && ev.value.chunks == ChunkMap(ChunksOf(record.text, ev.value.source.id, workspace))
  }

  /** No other connector's source carries one of the ids that the connector tracks. */
  ghost predicate Exclusive(l: seq<DataSource>, connector: string, tracked: set<string>) {
    forall i :: 0 <= i < |l| && EXTERNAL in l[i].metadata && l[i].metadata[EXTERNAL] in tracked ==> Has(l[i], CONNECTOR, connector)
  }

  ghost predicate Orderly(p: Pass, connector: string, tracked: set<string>) {
    WellFormed(p) && p.leftOver.None? && Exclusive(p.sources, connector, tracked) && AtMostOne(p.sources)
  }

  /** Source `k` is the first one, of whatever connector, that carries an external id. */
  ghost predicate FirstCarrier(l: seq<DataSource>, k: nat, id: string)
    requires k < |l|
  {
    Has(l[k], EXTERNAL, id) && forall m :: 0 <= m < k ==> !Has(l[m], EXTERNAL, id)
  }

  /** The same sources in the same order, but for the status. */
  ghost predicate SameCarriers(l: seq<DataSource>, r: seq<DataSource>) {
    |r| == |l| && forall k :: 0 <= k < |l| ==>
                    r[k].id == l[k].id && r[k].metadata == l[k].metadata && r[k].name == l[k].name && r[k].hash == l[k].hash
  }

  lemma ArchiveOneIff(l: seq<DataSource>, id: string)
    requires UniqueSources(l)
    ensures var r := ArchiveOne(l, id);
            && UniqueSources(r) && SameCarriers(l, r)
            && forall k :: 0 <= k < |l| ==> (r[k].status == Archived <==> l[k].status == Archived || FirstCarrier(l, k, id))
  {
    hide Has, Put;
    FirstWithNone(l, EXTERNAL, id);
    if FirstWith(l, EXTERNAL, id).Some? {
      var i := FirstWithIn(l, EXTERNAL, id);
      if l[i].status != Archived {
        PutAt(l, AsArchived(l[i]));
      }
    }
  }

  lemma CarriersKept(l: seq<DataSource>, r: seq<DataSource>, k: nat, id: string)
    requires SameCarriers(l, r) && k < |l|
    ensures FirstCarrier(l, k, id) <==> FirstCarrier(r, k, id)
  {
    assert forall m :: 0 <= m < |l| ==> (Has(l[m], EXTERNAL, id) <==> Has(r[m], EXTERNAL, id));
  }

  /** Archiving looks at external ids alone: what it archives are exactly the first carriers of the
      given ids, whatever connector they belong to. */
  lemma {:induction false} ArchiveAllIff(l: seq<DataSource>, ids: seq<string>)
    requires UniqueSources(l)
    ensures var r := ArchiveAll(l, ids);
            && UniqueSources(r) && SameCarriers(l, r)
            && forall k :: 0 <= k < |l| ==>
                 (r[k].status == Archived <==> l[k].status == Archived || exists i :: 0 <= i < |ids| && FirstCarrier(l, k, ids[i]))
  {
    hide ArchiveOne, FirstCarrier;
    if ids != [] {
      var n := |ids| - 1;
      ArchiveAllIff(l, ids[..n]);
      var mid := ArchiveAll(l, ids[..n]);
      ArchiveOneIff(mid, ids[n]);
      forall k | 0 <= k < |l| ensures FirstCarrier(mid, k, ids[n]) <==> FirstCarrier(l, k, ids[n]) {
        CarriersKept(l, mid, k, ids[n]);
      }
      assert ids == ids[..n] + [ids[n]];
    }
  }

  /** So a sync archives the connector's own source of an item that is gone exactly when no source that
      stands before it carries the same external id. */
  lemma ArchivesOwnIff(p: Pass, before: seq<SyncItem>, contents: seq<Content>, codec: Codec, scope: Scope, id: string, own: nat)
    requires |scope.workspace| > 0 && id in Gone(before, contents)
    requires var l := Reindexed(p, before, contents, codec, scope).sources;
             UniqueSources(l) && own < |l| && Owns(l[own], scope.connector, id) && l[own].status != Archived
    ensures var l, r := Reindexed(p, before, contents, codec, scope).sources, NextEvidenceStore(p, before, contents, codec, scope).sources;
            && |r| == |l| && r[own].id == l[own].id
            && (r[own].status == Archived <==> forall k :: 0 <= k < own ==> !Has(l[k], EXTERNAL, id))
  {
    hide Reindexed, ArchiveAll, Gone;
    var l, ids := Reindexed(p, before, contents, codec, scope).sources, Gone(before, contents);
    ArchiveAllIff(l, ids);
    var i :| 0 <= i < |ids| && ids[i] == id;
    if FirstCarrier(l, own, id) {
      assert FirstCarrier(l, own, ids[i]);
    }
  }

  lemma {:induction false} FirstWithNone(l: seq<DataSource>, key: string, value: string)
    ensures FirstWith(l, key, value).None? <==> forall i :: 0 <= i < |l| ==> !Has(l[i], key, value)
  {
    if |l| > 0 {
      assert l == [l[0]] + l[1..];
      FirstWithNone(l[1..], key, value);
    }
  }

  lemma {:induction false} ExclusiveSearch(l: seq<DataSource>, connector: string, tracked: set<string>, id: string)
    requires Exclusive(l, connector, tracked) && id in tracked
    ensures FirstWith(l, EXTERNAL, id) == FirstOwned(l, connector, id)
  {
    if |l| > 0 {
      assert l == [l[0]] + l[1..];
      ExclusiveSearch(l[1..], connector, tracked, id);
    }
  }

  function AsArchived(ds: DataSource): DataSource {
    if ds.status == Archived then ds else DataSource(ds.id, ds.name, ds.hash, Archived, ds.metadata)
  }

  /** Archiving one id archives the source of that item and touches no other. */
  lemma ArchiveOneEffect(l: seq<DataSource>, connector: string, tracked: set<string>, id: string, e: string, next: SourceId)
    requires forall i :: 0 <= i < |l| ==> l[i].id < next
    requires UniqueSources(l) && Exclusive(l, connector, tracked) && AtMostOne(l) && |connector| > 0 && |id| > 0 && id in tracked
    ensures var r := ArchiveOne(l, id);
            && UniqueSources(r) && Exclusive(r, connector, tracked) && AtMostOne(r)
            && (forall i :: 0 <= i < |r| ==> r[i].id < next)
            && FirstOwned(r, connector, e) ==
               if e == id && FirstOwned(l, connector, e).Some? then Some(AsArchived(FirstOwned(l, connector, e).value))
               else FirstOwned(l, connector, e)
  {
    hide Put, FirstOwned, FirstWith, AtMostOne;
    ExclusiveSearch(l, connector, tracked, id);
    var found := FirstWith(l, EXTERNAL, id);
    if found.Some? && found.value.status != Archived {
      var k := FirstOwnedIn(l, connector, id);
      var ds := AsArchived(found.value);
      PutAt(l, ds);
      FindPut(l, ds, connector, e);
      PutKeepsAtMostOne(l, ds);
      PutMembers(l, ds);
      assert forall i :: 0 <= i < |Put(l, ds)| ==> Put(l, ds)[i] in Put(l, ds);
      if FirstOwned(l, connector, e).Some? {
        var j := FirstOwnedIn(l, connector, e);
        if e != id {
          assert !(Owns(l[j], connector, e) && Owns(l[j], connector, id));
        }
      } else {
        FirstOwnedNone(l, connector, e);
      }
    }
  }

  lemma {:induction false} ArchiveAllEffect(l: seq<DataSource>, connector: string, tracked: set<string>, ids: seq<string>, e: string, next: SourceId)
    requires forall i :: 0 <= i < |l| ==> l[i].id < next
    requires UniqueSources(l) && Exclusive(l, connector, tracked) && AtMostOne(l) && |connector| > 0
    requires forall i :: 0 <= i < |ids| ==> |ids[i]| > 0 && ids[i] in tracked
    ensures var r := ArchiveAll(l, ids);
            && UniqueSources(r) && Exclusive(r, connector, tracked) && AtMostOne(r)
            && (forall i :: 0 <= i < |r| ==> r[i].id < next)
            && FirstOwned(r, connector, e) ==
               if e in ids && FirstOwned(l, connector, e).Some? then Some(AsArchived(FirstOwned(l, connector, e).value))
               else FirstOwned(l, connector, e)
  {
    hide ArchiveOne, FirstOwned, AtMostOne, UniqueSources, Exclusive;
    if ids != [] {
      var n := |ids| - 1;
      ArchiveAllEffect(l, connector, tracked, ids[..n], e, next);
      ArchiveOneEffect(ArchiveAll(l, ids[..n]), connector, tracked, ids[n], e, next);
      assert ids == ids[..n] + [ids[n]];
    }
  }

  // ------------------------------------------------------------------
  // One sync, seen from one item

  lemma {:induction false} GoneIndex(before: seq<SyncItem>, contents: seq<Content>, id: string)
    ensures id in Gone(before, contents) <==>
            exists i :: 0 <= i < |before| && before[i].externalId == id && Seen(contents, id).None? && before[i].status != DeletedRemote
  {
    hide Seen;
    if before != [] {
      GoneIndex(before[..|before| - 1], contents, id);
      assert before == before[..|before| - 1] + [before[|before| - 1]];
    }
  }

  /** The positions of what is gone. */
  function GoneAt(before: seq<SyncItem>, contents: seq<Content>): (at: seq<nat>)
    ensures forall i :: 0 <= i < |at| ==> at[i] < |before|
  {
    if before == [] then []
    else
      var n := |before| - 1;
      GoneAt(before[..n], contents)
      + if Seen(contents, before[n].externalId).None? && before[n].status != DeletedRemote then [n] else []
  }

  /** What is gone is reported in the order of the state list. */
  lemma {:induction false} GoneInOrder(before: seq<SyncItem>, contents: seq<Content>)
    ensures |Gone(before, contents)| == |GoneAt(before, contents)|
    ensures forall i :: 0 <= i < |GoneAt(before, contents)| ==> Gone(before, contents)[i] == before[GoneAt(before, contents)[i]].externalId
    ensures forall i, j :: 0 <= i < j < |GoneAt(before, contents)| ==> GoneAt(before, contents)[i] < GoneAt(before, contents)[j]
  {
    hide Seen;
    if before != [] {
      GoneInOrder(before[..|before| - 1], contents);
    }
  }

  lemma GoneIff(before: seq<SyncItem>, contents: seq<Content>, id: string)
    requires UniqueIds(before)
    ensures id in Gone(before, contents) <==>
            var item := Lookup(before, id); item.Some? && item.value.status != DeletedRemote && Seen(contents, id).None?
  {
    hide Seen, Gone;
    GoneIndex(before, contents, id);
    if i :| 0 <= i < |before| && before[i].externalId == id {
      LookupAt(before, i);
    }
    if Lookup(before, id).Some? {
      var i := LookupSome(before, id);
    }
  }

  lemma {:induction false} WithIdsContents(contents: seq<Content>, id: string)
    requires |id| > 0
    ensures ContentsOf(WithIds(contents), id) == ContentsOf(contents, id)
    ensures Seen(contents, id) == var cs := ContentsOf(contents, id); if cs == [] then None else Some(cs[|cs| - 1])
  {
    if contents != [] {
      WithIdsContents(contents[..|contents| - 1], id);
      var rest, c := WithIds(contents[..|contents| - 1]), contents[|contents| - 1];
      assert (rest + [c])[..|rest|] == rest;
      if |c.externalId| == 0 {
        assert WithIds(contents) == rest + [];
        assert rest + [] == rest;
      }
    }
  }

  /** A content that compares as new or changed is counted. */
  lemma {:induction false} ContentIsCounted(before: seq<SyncItem>, contents: seq<Content>, codec: Codec, id: string, c: Content)
    requires |id| > 0 && c in ContentsOf(contents, id)
    ensures CountStatus(before, contents, codec, StatusFor(Lookup(before, id), HashOf(codec, c))) > 0
  {
    hide HashOf, StatusFor, Lookup;
    var last := contents[|contents| - 1];
    if c in ContentsOf(contents[..|contents| - 1], id) {
      ContentIsCounted(before, contents[..|contents| - 1], codec, id, c);
    } else {
      assert last == c && last.externalId == id;
    }
  }

  /** What a sync does to the evidence of one item of its connector. */
  lemma SyncEvidence(p: Pass, before: seq<SyncItem>, contents: seq<Content>, codec: Codec, scope: Scope, tracked: set<string>, id: string)
    returns (drawn: SourceId)
    requires Orderly(p, scope.connector, tracked) && UniqueIds(before) && Lookup(before, "").None?
    requires forall e :: Lookup(before, e).Some? ==> e in tracked
    requires |scope.workspace| > 0 && |scope.connector| > 0 && |id| > 0 && Harmless(WithIds(contents), codec)
    ensures var q := NextEvidenceStore(p, before, contents, codec, scope);
            Orderly(q, scope.connector, tracked)
    ensures var q := NextEvidenceStore(p, before, contents, codec, scope);
            var reindex := CountStatus(before, contents, codec, New) > 0 || CountStatus(before, contents, codec, Changed) > 0;
            var ev := EvidenceOf(p, scope.connector, id);
            var mid := if reindex then FoldEvidence(ev, WithIds(contents), id, drawn, codec, scope.connector, scope.workspace) else ev;
            EvidenceOf(q, scope.connector, id) ==
            if id in Gone(before, contents) && mid.Some? then Some(Evidence(AsArchived(mid.value.source), mid.value.chunks)) else mid
  {
    hide PersistAll, ArchiveAll, Gone, CountStatus, Seen, FoldEvidence, FirstOwned, AtMostOne, UniqueSources, Lookup, WithIds, Harmless, AtHome;
    drawn := 0;
    var reindex := CountStatus(before, contents, codec, New) > 0 || CountStatus(before, contents, codec, Changed) > 0;
    var q := p;
    if reindex {
      assert p == Pass(p.sources, p.dirs, p.next, None);
      q := PersistAll(p, WithIds(contents), codec, scope.connector, scope.workspace);
      NoneAtHome(p);
      PassInvariant(p, WithIds(contents), codec, scope.connector, scope.workspace);
      drawn := PassEvidence(p, WithIds(contents), codec, scope.connector, scope.workspace, scope.connector, id);
      PassExclusive(p, WithIds(contents), codec, scope.connector, scope.workspace, tracked);
    }
    var ids := Gone(before, contents);
    forall i | 0 <= i < |ids| ensures |ids[i]| > 0 && ids[i] in tracked {
      assert ids[i] in ids;
      GoneIff(before, contents, ids[i]);
      assert ids[i] != "";
    }
    ArchiveAllEffect(q.sources, scope.connector, tracked, ids, id, q.next);
  }

  /** A pass adds only sources of its own connector. */
  lemma {:induction false} PassExclusive(p: Pass, items: seq<Content>, codec: Codec, connector: string, workspace: string, tracked: set<string>)
    requires WellFormed(p) && AtHome(p) && Exclusive(p.sources, connector, tracked)
    ensures Exclusive(PersistAll(p, items, codec, connector, workspace).sources, connector, tracked)
  {
    hide PersistOne, AtMostOne, WellFormed, AtHome;
    if items != [] {
      var rest, item := items[..|items| - 1], items[|items| - 1];
      PassExclusive(p, rest, codec, connector, workspace, tracked);
      PassInvariant(p, rest, codec, connector, workspace);
      PersistOneExclusive(PersistAll(p, rest, codec, connector, workspace), item, codec, connector, workspace, tracked);
    }
  }

  lemma PersistOneExclusive(p: Pass, item: Content, codec: Codec, connector: string, workspace: string, tracked: set<string>)
    requires WellFormed(p) && Exclusive(p.sources, connector, tracked)
    ensures Exclusive(PersistOne(p, item, codec, connector, workspace).sources, connector, tracked)
  {
    hide WriteChunks, HashOf, TextOf, ToSave, FirstOwned, Put;
    if Changes(p, item, codec, connector) {
      var ds := Written(p, item, codec, connector, workspace);
      PutMembers(p.sources, ds);
      var r := Put(p.sources, ds);
      forall i | 0 <= i < |r| && EXTERNAL in r[i].metadata && r[i].metadata[EXTERNAL] in tracked ensures Has(r[i], CONNECTOR, connector) {
        assert r[i] in r;
      }
    }
  }

  // ------------------------------------------------------------------
  // Syncs of other connectors

  /** These syncs are run for other connectors, or outside a workspace, and have nothing to do with the
      tracked ids. */
  ghost predicate Foreign(others: seq<OtherSync>, scope: Scope, tracked: set<string>) {
    forall k :: 0 <= k < |others| ==> ForeignOne(others[k], scope, tracked)
  }

  ghost predicate ForeignOne(o: OtherSync, scope: Scope, tracked: set<string>) {
    && (o.scope.connector != scope.connector || |o.scope.workspace| == 0)
    && (forall i :: 0 <= i < |o.before| ==> o.before[i].externalId !in tracked)
    && (forall i :: 0 <= i < |o.contents| ==> o.contents[i].externalId !in tracked)
  }

  lemma {:induction false} PassLeavesOthers(p: Pass, items: seq<Content>, codec: Codec, connector: string, workspace: string, c: string, e: string)
    requires WellFormed(p) && AtHome(p) && c != connector
    ensures EvidenceOf(PersistAll(p, items, codec, connector, workspace), c, e) == EvidenceOf(p, c, e)
  {
    hide PersistOne, AtHome, WellFormed, AtMostOne, EvidenceOf, NextEvidence;
    if items != [] {
      var n := |items| - 1;
      PassLeavesOthers(p, items[..n], codec, connector, workspace, c, e);
      PassInvariant(p, items[..n], codec, connector, workspace);
      PersistOneEvidence(PersistAll(p, items[..n], codec, connector, workspace), items[n], codec, connector, workspace, c, e);
    }
  }

  lemma {:induction false} PassForeign(p: Pass, items: seq<Content>, codec: Codec, connector: string, workspace: string,
                                       c: string, tracked: set<string>)
    requires WellFormed(p) && AtHome(p) && Exclusive(p.sources, c, tracked)
    requires forall i :: 0 <= i < |items| ==> items[i].externalId !in tracked
    ensures Exclusive(PersistAll(p, items, codec, connector, workspace).sources, c, tracked)
  {
    hide PersistOne, AtHome, WellFormed, AtMostOne;
    if items != [] {
      var n := |items| - 1;
      PassForeign(p, items[..n], codec, connector, workspace, c, tracked);
      PassInvariant(p, items[..n], codec, connector, workspace);
      OneForeign(PersistAll(p, items[..n], codec, connector, workspace), items[n], codec, connector, workspace, c, tracked);
    }
  }

  lemma OneForeign(p: Pass, item: Content, codec: Codec, connector: string, workspace: string, c: string, tracked: set<string>)
    requires WellFormed(p) && Exclusive(p.sources, c, tracked) && item.externalId !in tracked
    ensures Exclusive(PersistOne(p, item, codec, connector, workspace).sources, c, tracked)
  {
    hide WriteChunks, HashOf, TextOf, ToSave, FirstOwned, Put;
    if Changes(p, item, codec, connector) {
      var ds := Written(p, item, codec, connector, workspace);
      PutMembers(p.sources, ds);
      var r := Put(p.sources, ds);
      forall i | 0 <= i < |r| && EXTERNAL in r[i].metadata && r[i].metadata[EXTERNAL] in tracked ensures Has(r[i], CONNECTOR, c) {
        assert r[i] in r;
      }
    }
  }

  /** Archiving an id leaves the sources of other ids alone. */
  lemma ArchiveOther(l: seq<DataSource>, id: string, c: string, e: string)
    requires UniqueSources(l) && id != e
    ensures FirstOwned(ArchiveOne(l, id), c, e) == FirstOwned(l, c, e)
  {
    hide Put, FirstOwned, FirstWith;
    if FirstWith(l, EXTERNAL, id).Some? {
      var i := FirstWithIn(l, EXTERNAL, id);
      if l[i].status != Archived {
        FindPut(l, AsArchived(l[i]), c, e);
        assert !Owns(AsArchived(l[i]), c, e);
        if FirstOwned(l, c, e).Some? {
          var j := FirstOwnedIn(l, c, e);
        }
      }
    }
  }

  lemma {:induction false} ArchiveOthers(l: seq<DataSource>, ids: seq<string>, c: string, e: string)
    requires UniqueSources(l) && e !in ids
    ensures FirstOwned(ArchiveAll(l, ids), c, e) == FirstOwned(l, c, e)
  {
    hide ArchiveOne, FirstOwned, FirstCarrier;
    if ids != [] {
      var n := |ids| - 1;
      assert ids == ids[..n] + [ids[n]];
      ArchiveOthers(l, ids[..n], c, e);
      ArchiveAllIff(l, ids[..n]);
      ArchiveOther(ArchiveAll(l, ids[..n]), ids[n], c, e);
    }
  }

  lemma CarriersKeep(l: seq<DataSource>, r: seq<DataSource>, c: string, tracked: set<string>)
    requires SameCarriers(l, r)
    ensures AtMostOne(l) ==> AtMostOne(r)
    ensures Exclusive(l, c, tracked) ==> Exclusive(r, c, tracked)
  {
    hide AtMostOne;
    if AtMostOne(l) {
      CarriersOwn(l, r);
    }
  }

  lemma CarriersOwn(l: seq<DataSource>, r: seq<DataSource>)
    requires SameCarriers(l, r) && AtMostOne(l)
    ensures AtMostOne(r)
  {
    hide Owns;
    forall i, j, a, b | 0 <= i < j < |r| && |a| > 0 && |b| > 0 && Owns(r[i], a, b) ensures !Owns(r[j], a, b) {
      OwnsByMetadata(r[i], l[i], a, b);
      OwnsByMetadata(r[j], l[j], a, b);
    }
  }

  /** A sync that is foreign keeps order and the evidence of the tracked items. */
  lemma OtherKeeps(p: Pass, o: OtherSync, codec: Codec, scope: Scope, tracked: set<string>, id: string)
    requires Orderly(p, scope.connector, tracked) && ForeignOne(o, scope, tracked) && id in tracked
    ensures var q := NextEvidenceStore(p, o.before, o.contents, codec, o.scope);
            Orderly(q, scope.connector, tracked) && EvidenceOf(q, scope.connector, id) == EvidenceOf(p, scope.connector, id)
  {
    hide PersistAll, ArchiveAll, Gone, CountStatus, WithIds, FirstOwned, Exclusive, AtMostOne, WellFormed, AtHome;
    if |o.scope.workspace| > 0 {
      var q := Reindexed(p, o.before, o.contents, codec, o.scope);
      ReindexedKeeps(p, o, codec, scope, tracked, id);
      var ids := Gone(o.before, o.contents);
      GoneForeign(o.before, o.contents, tracked);
      ArchivedKeeps(q, ids, scope.connector, tracked, id);
    }
  }

  lemma ReindexedKeeps(p: Pass, o: OtherSync, codec: Codec, scope: Scope, tracked: set<string>, id: string)
    requires Orderly(p, scope.connector, tracked) && ForeignOne(o, scope, tracked) && |o.scope.workspace| > 0
    ensures var q := Reindexed(p, o.before, o.contents, codec, o.scope);
            && WellFormed(q) && Exclusive(q.sources, scope.connector, tracked) && AtMostOne(q.sources)
            && EvidenceOf(q, scope.connector, id) == EvidenceOf(p, scope.connector, id)
  {
    hide PersistAll, CountStatus, WithIds, EvidenceOf, Exclusive, AtMostOne, WellFormed, AtHome;
    NoneAtHome(p);
    assert p == Pass(p.sources, p.dirs, p.next, None);
    WithIdsForeign(o.contents, tracked);
    var items := WithIds(o.contents);
    PassInvariant(p, items, codec, o.scope.connector, o.scope.workspace);
    PassLeavesOthers(p, items, codec, o.scope.connector, o.scope.workspace, scope.connector, id);
    PassForeign(p, items, codec, o.scope.connector, o.scope.workspace, scope.connector, tracked);
  }

  lemma ArchivedKeeps(q: Pass, ids: seq<string>, connector: string, tracked: set<string>, id: string)
    requires WellFormed(q) && Exclusive(q.sources, connector, tracked) && AtMostOne(q.sources) && id !in ids
    ensures var r := Pass(ArchiveAll(q.sources, ids), q.dirs, q.next, None);
            Orderly(r, connector, tracked) && EvidenceOf(r, connector, id) == EvidenceOf(q, connector, id)
  {
    hide ArchiveAll, FirstOwned, Exclusive, AtMostOne, FirstCarrier;
    ArchiveAllIff(q.sources, ids);
    ArchiveOthers(q.sources, ids, connector, id);
    CarriersKeep(q.sources, ArchiveAll(q.sources, ids), connector, tracked);
  }

  lemma {:induction false} WithIdsForeign(contents: seq<Content>, tracked: set<string>)
    requires forall i :: 0 <= i < |contents| ==> contents[i].externalId !in tracked
    ensures forall i :: 0 <= i < |WithIds(contents)| ==> WithIds(contents)[i].externalId !in tracked
  {
    if contents != [] {
      WithIdsForeign(contents[..|contents| - 1], tracked);
    }
  }

  lemma GoneForeign(before: seq<SyncItem>, contents: seq<Content>, tracked: set<string>)
    requires forall i :: 0 <= i < |before| ==> before[i].externalId !in tracked
    ensures forall id :: id in Gone(before, contents) ==> id !in tracked
  {
    hide Gone, Seen;
    forall id | id in Gone(before, contents) ensures id !in tracked {
      GoneIndex(before, contents, id);
    }
  }

  lemma {:induction false} OthersKeep(p: Pass, others: seq<OtherSync>, codec: Codec, scope: Scope, tracked: set<string>, id: string)
    requires Orderly(p, scope.connector, tracked) && Foreign(others, scope, tracked) && id in tracked
    ensures var q := AfterOthers(p, others, codec);
            Orderly(q, scope.connector, tracked) && EvidenceOf(q, scope.connector, id) == EvidenceOf(p, scope.connector, id)
  {
    hide NextEvidenceStore, Orderly, EvidenceOf, ForeignOne;
    if others != [] {
      var n := |others| - 1;
      assert ForeignOne(others[n], scope, tracked);
      OthersKeep(p, others[..n], codec, scope, tracked, id);
      OtherKeeps(AfterOthers(p, others[..n], codec), others[n], codec, scope, tracked, id);
    }
  }

  // ------------------------------------------------------------------
  // Any number of syncs

  /** How the state of an item and its record go together. */
  ghost predicate Tied(item: Option<SyncItem>, r: Option<Record>) {
    && (item.None? ==> r.None?)
    && (item.Some? && item.value.hash != Some(Sha256([])) ==> r.Some? && item.value.hash == Some(r.value.hash))
    && (item.Some? && item.value.status == DeletedRemote && r.Some? ==> r.value.archived)
  }

  lemma TiedStep(before: seq<SyncItem>, contents: seq<Content>, codec: Codec, id: string, r: Option<Record>, item': Option<SyncItem>)
    requires Faithful(codec) && Tied(Lookup(before, id), r) && |id| > 0
    requires item' == NextItem(Lookup(before, id), id, Seen(contents, id), codec)
    ensures Tied(item', NextRecord(r, ContentsOf(contents, id), codec))
  {
    hide HashOf, Lookup, Seen, Faithful, TextOf, IsEmpty, ContentsOf;
    WithIdsContents(contents, id);
    var seen := Seen(contents, id);
    if seen.Some? {
      EmptyHash(codec, seen.value);
    }
  }

  /** The evidence follows the record through the contents of a pass. */
  lemma {:induction false} FoldMatches(ev: Option<Evidence>, r: Option<Record>, items: seq<Content>, e: string, drawn: SourceId,
                                       codec: Codec, connector: string, workspace: string)
    requires Matches(ev, r, workspace)
    ensures Matches(FoldEvidence(ev, items, e, drawn, codec, connector, workspace), FoldRecord(r, ContentsOf(items, e), codec), workspace)
  {
    hide NextEvidence, OneRecord, Matches;
    if items != [] {
      var rest, item := items[..|items| - 1], items[|items| - 1];
      FoldMatches(ev, r, rest, e, drawn, codec, connector, workspace);
      var cs := ContentsOf(rest, e);
      if item.externalId == e {
        assert ContentsOf(items, e) == cs + [item] && (cs + [item])[..|cs|] == cs;
        OneMatches(FoldEvidence(ev, rest, e, drawn, codec, connector, workspace), FoldRecord(r, cs, codec), item, drawn, codec, connector, workspace);
      } else {
        assert ContentsOf(items, e) == cs + [] == cs;
      }
    }
  }

  lemma OneMatches(ev: Option<Evidence>, r: Option<Record>, item: Content, drawn: SourceId, codec: Codec, connector: string, workspace: string)
    requires Matches(ev, r, workspace)
    ensures Matches(NextEvidence(ev, item, drawn, false, codec, connector, workspace), OneRecord(r, item, codec), workspace)
  {
    hide HashOf, TextOf, IsEmpty, ChunkMap, ChunksOf, Strip;
  }

  /** Contents that are empty or have the recorded hash leave the record as it is. */
  lemma {:induction false} FoldSame(r: Option<Record>, contents: seq<Content>, codec: Codec)
    requires forall c :: c in contents ==> IsEmpty(c) || (r.Some? && r.value.hash == HashOf(codec, c))
    ensures FoldRecord(r, contents, codec) == r
  {
    hide HashOf, IsEmpty;
    if contents != [] {
      FoldSame(r, contents[..|contents| - 1], codec);
    }
  }

  lemma MatchesStep(w: World, contents: seq<Content>, codec: Codec, scope: Scope, w': World, tracked: set<string>, id: string, r: Option<Record>)
    requires SyncStep(w, contents, codec, scope, w') && Faithful(codec)
    requires Orderly(w.store, scope.connector, tracked) && UniqueIds(w.items) && Lookup(w.items, "").None?
    requires forall e :: Lookup(w.items, e).Some? ==> e in tracked
    requires |scope.workspace| > 0 && |scope.connector| > 0 && |id| > 0 && Harmless(WithIds(contents), codec)
    requires Matches(EvidenceOf(w.store, scope.connector, id), r, scope.workspace) && Tied(Lookup(w.items, id), r)
    ensures Orderly(w'.store, scope.connector, tracked)
    ensures Matches(EvidenceOf(w'.store, scope.connector, id), NextRecord(r, ContentsOf(contents, id), codec), scope.workspace)
  {
    hide NextEvidenceStore, HashOf, TextOf, Lookup, Seen, CountStatus, Gone, EvidenceOf, ChunkMap, ChunksOf, Orderly,
      UniqueIds, Harmless, Faithful, IsEmpty, Synced, FoldEvidence, FoldRecord, ContentsOf;
    var ev := EvidenceOf(w.store, scope.connector, id);
    var drawn := SyncEvidence(w.store, w.items, contents, codec, scope, tracked, id);
    GoneIff(w.items, contents, id);
    WithIdsContents(contents, id);
    var reindex := CountStatus(w.items, contents, codec, New) > 0 || CountStatus(w.items, contents, codec, Changed) > 0;
    var cs := ContentsOf(contents, id);
    if reindex {
      FoldMatches(ev, r, WithIds(contents), id, drawn, codec, scope.connector, scope.workspace);
    } else {
      forall c | c in cs ensures IsEmpty(c) || (r.Some? && r.value.hash == HashOf(codec, c)) {
        ContentIsCounted(w.items, contents, codec, id, c);
        EmptyHash(codec, c);
      }
      FoldSame(r, cs, codec);
    }
    if cs == [] {
      NothingFolded(r, codec);
    }
  }

  lemma NothingFolded(r: Option<Record>, codec: Codec)
    ensures FoldRecord(r, [], codec) == r
  {
  }

  /** The stores agree after any sequence of successful syncs of one connector, whatever other connectors
      were synced in between, if within each snapshot the ids are distinct or no text is blank, and no
      other connector tracks, or has sources for, the ids that this one tracks: no item has two
      sources; the source of an item has the hash that the state list has, unless the content seen
      last was empty; its chunks are exactly those of the text behind that hash; and what the state
      list marks as deleted is archived. */
  lemma {:induction false} StoresAgree(worlds: seq<World>, between: seq<seq<OtherSync>>, snapshots: seq<seq<Content>>, codec: Codec, scope: Scope, tracked: set<string>, n: nat, id: string)
    requires SyncRun(worlds, between, snapshots, codec, scope) && n < |worlds| && Faithful(codec)
    requires forall i :: 0 <= i < |snapshots| ==> Harmless(WithIds(snapshots[i]), codec)
    requires |scope.workspace| > 0 && |scope.connector| > 0 && |id| > 0 && id in tracked
    requires forall i :: 0 <= i < |between| ==> Foreign(between[i], scope, tracked)
    requires forall i, e :: 0 <= i < |snapshots| && Seen(snapshots[i], e).Some? ==> e in tracked
    requires Orderly(worlds[0].store, scope.connector, tracked) && EvidenceOf(worlds[0].store, scope.connector, id).None?
    ensures Orderly(worlds[n].store, scope.connector, tracked)
    ensures Matches(EvidenceOf(worlds[n].store, scope.connector, id), RecordOf(snapshots[..n], id, codec), scope.workspace)
    ensures var item, ev := Lookup(worlds[n].items, id), EvidenceOf(worlds[n].store, scope.connector, id);
            && (item.None? ==> ev.None?)
            && (item.Some? && item.value.hash != Some(Sha256([])) ==> ev.Some? && item.value.hash == Some(ev.value.source.hash))
            && (item.Some? && item.value.status == DeletedRemote && ev.Some? ==> ev.value.source.status == Archived)
    ensures Tied(Lookup(worlds[n].items, id), RecordOf(snapshots[..n], id, codec))
  {
    hide HashOf, Seen, Orderly, EvidenceOf, NextEvidenceStore, Faithful, NextRecord, Harmless, ChunkMap, ChunksOf, LastSeen, ContentsOf,
      Synced, Lookup, UniqueIds, AfterOthers, Foreign;
    if n == 0 {
      NothingYet(worlds[0].items, id);
    } else {
      StoresAgree(worlds, between, snapshots, codec, scope, tracked, n - 1, id);
      Known(worlds, between, snapshots, codec, scope, tracked, n - 1);
      var w := Begun(worlds, between, codec, n - 1);
      assert SyncStep(w, snapshots[n - 1], codec, scope, worlds[n]);
      OthersKeep(worlds[n - 1].store, between[n - 1], codec, scope, tracked, id);
      assert snapshots[..n][..n - 1] == snapshots[..n - 1];
      var r := RecordOf(snapshots[..n - 1], id, codec);
      MatchesStep(w, snapshots[n - 1], codec, scope, worlds[n], tracked, id, r);
      LookupNext(w, snapshots[n - 1], codec, scope, worlds[n], id);
      TiedStep(worlds[n - 1].items, snapshots[n - 1], codec, id, r, Lookup(worlds[n].items, id));
    }
  }

  lemma NothingYet(items: seq<SyncItem>, id: string)
    requires items == []
    ensures Lookup(items, id).None?
  {
  }

  lemma LookupNext(w: World, contents: seq<Content>, codec: Codec, scope: Scope, w': World, id: string)
    requires SyncStep(w, contents, codec, scope, w')
    ensures Lookup(w'.items, id) == NextItem(Lookup(w.items, id), id, Seen(contents, id), codec)
  {
    hide Lookup, NextItem, Seen;
  }

  /** The state list has only ids that were seen, and no empty one. */
  lemma Known(worlds: seq<World>, between: seq<seq<OtherSync>>, snapshots: seq<seq<Content>>, codec: Codec, scope: Scope, tracked: set<string>, n: nat)
    requires SyncRun(worlds, between, snapshots, codec, scope) && n < |worlds|
    requires forall i, e :: 0 <= i < |snapshots| && Seen(snapshots[i], e).Some? ==> e in tracked
    ensures UniqueIds(worlds[n].items) && Lookup(worlds[n].items, "").None?
    ensures forall e :: Lookup(worlds[n].items, e).Some? ==> e in tracked
  {
    hide HashOf, Seen, LastSeen, Lookup, SyncRun, UniqueIds;
    StateHistory(worlds, between, snapshots, codec, scope, n, "");
    assert |snapshots| + 1 == |worlds| by { Lengths(worlds, between, snapshots, codec, scope); }
    NeverSeen(snapshots[..n]);
    forall e | Lookup(worlds[n].items, e).Some? ensures e in tracked {
      StateHistory(worlds, between, snapshots, codec, scope, n, e);
      SeenSometime(snapshots, n, e);
    }
  }

  lemma Lengths(worlds: seq<World>, between: seq<seq<OtherSync>>, snapshots: seq<seq<Content>>, codec: Codec, scope: Scope)
    requires SyncRun(worlds, between, snapshots, codec, scope)
    ensures |snapshots| + 1 == |worlds|
  {
  }

  lemma {:induction false} SeenSometime(snapshots: seq<seq<Content>>, n: nat, e: string)
    requires n <= |snapshots| && LastSeen(snapshots[..n], e).Some?
    ensures exists i :: 0 <= i < n && Seen(snapshots[i], e).Some?
  {
    hide Seen;
    assert snapshots[..n][..n - 1] == snapshots[..n - 1];
    if Seen(snapshots[n - 1], e).None? {
      SeenSometime(snapshots, n - 1, e);
    }
  }

  lemma {:induction false} NeverSeen(snapshots: seq<seq<Content>>)
    ensures LastSeen(snapshots, "").None?
  {
    if snapshots != [] {
      NeverSeen(snapshots[..|snapshots| - 1]);
    }
  }

  /** The item was missing from snapshot `m`, when it had a record, and since then it has come back
      only with the hash of that record or with empty content. */
  ghost predicate GoneSince(snapshots: seq<seq<Content>>, m: int, n: nat, codec: Codec, id: string)
    requires n <= |snapshots|
  {
    && 0 <= m < n && ContentsOf(snapshots[m], id) == [] && RecordOf(snapshots[..m], id, codec).Some?
    && forall k, c :: m < k < n && c in ContentsOf(snapshots[k], id) ==>
         IsEmpty(c) || HashOf(codec, c) == RecordOf(snapshots[..m], id, codec).value.hash
  }

  lemma {:induction false} FoldArchivedIff(r: Option<Record>, contents: seq<Content>, codec: Codec)
    ensures var r' := FoldRecord(r, contents, codec);
            (r'.Some? && r'.value.archived) <==>
            r.Some? && r.value.archived && forall c :: c in contents ==> IsEmpty(c) || HashOf(codec, c) == r.value.hash
    ensures var r' := FoldRecord(r, contents, codec);
            r'.Some? && r'.value.archived ==> r' == r
  {
    hide HashOf, IsEmpty, TextOf;
    if contents != [] {
      FoldArchivedIff(r, contents[..|contents| - 1], codec);
      assert contents == contents[..|contents| - 1] + [contents[|contents| - 1]];
    }
  }

  /** An item that comes back is not unarchived unless it has changed: its record is archived if and
      only if it has been missing once and has not come back changed since. */
  lemma {:induction false} ArchivedIff(snapshots: seq<seq<Content>>, n: nat, codec: Codec, id: string)
    requires n <= |snapshots|
    ensures var r := RecordOf(snapshots[..n], id, codec);
            (r.Some? && r.value.archived) <==> exists m :: GoneSince(snapshots, m, n, codec, id)
    ensures var r := RecordOf(snapshots[..n], id, codec);
            forall m :: GoneSince(snapshots, m, n, codec, id) ==> r.Some? && r.value.hash == RecordOf(snapshots[..m], id, codec).value.hash
  {
    hide HashOf, IsEmpty, TextOf, ContentsOf, FoldRecord;
    if n > 0 {
      ArchivedIff(snapshots, n - 1, codec, id);
      assert snapshots[..n][..n - 1] == snapshots[..n - 1];
      var r, q, cs := RecordOf(snapshots[..n], id, codec), RecordOf(snapshots[..n - 1], id, codec), ContentsOf(snapshots[n - 1], id);
      assert r == NextRecord(q, cs, codec);
      FoldArchivedIff(q, cs, codec);
      forall m | GoneSince(snapshots, m, n, codec, id)
        ensures r.Some? && r.value.archived && r.value.hash == RecordOf(snapshots[..m], id, codec).value.hash
      {
        assert m < n - 1 ==> GoneSince(snapshots, m, n - 1, codec, id);
      }
      if r.Some? && r.value.archived {
        if cs == [] {
          assert GoneSince(snapshots, n - 1, n, codec, id);
        } else {
          var m :| GoneSince(snapshots, m, n - 1, codec, id);
          assert GoneSince(snapshots, m, n, codec, id);
        }
      }
    }
  }

  /** So the two stores need not agree on what is live: an item that is there, is missing, and is
      there again ends as unchanged in the state list while its source stays archived. */
  lemma RestoredExample(a: Content, codec: Codec, scope: Scope, start: Pass) returns (worlds: seq<World>)
    requires Faithful(codec) && |scope.workspace| > 0 && |scope.connector| > 0 && |a.externalId| > 0 && !IsEmpty(a)
    requires Orderly(start, scope.connector, {a.externalId}) && EvidenceOf(start, scope.connector, a.externalId).None?
    ensures SyncRun(worlds, [[], [], []], [[a], [], [a]], codec, scope) && worlds[0].store == start
    ensures Lookup(worlds[3].items, a.externalId) == Some(SyncItem(a.externalId, Some(HashOf(codec, a)), SyncState.Unchanged))
    ensures EvidenceOf(worlds[3].store, scope.connector, a.externalId).Some?
    ensures EvidenceOf(worlds[3].store, scope.connector, a.externalId).value.source.status == Archived
  {
    hide HashOf, Orderly, EvidenceOf, NextEvidenceStore, Faithful, IsEmpty, ChunkMap, ChunksOf, TextOf, Seen, SyncRun, ContentsOf,
      Harmless, Exclusive, Matches, RecordOf, GoneSince, Tied;
    worlds := RestoredRun(a, codec, scope, start);
    SeenOne(a);
    Recurs(a, codec, scope, a.externalId);
    NoForeign(scope, {a.externalId});
    FourWorlds(worlds, [[], [], []], [[a], [], [a]], codec, scope);
    StoresAgree(worlds, [[], [], []], [[a], [], [a]], codec, scope, {a.externalId}, 3, a.externalId);
    ArchivedIff([[a], [], [a]], 3, codec, a.externalId);
    ShownArchived(EvidenceOf(worlds[3].store, scope.connector, a.externalId), RecordOf([[a], [], [a]][..3], a.externalId, codec), scope.workspace);
  }

  lemma ShownArchived(ev: Option<Evidence>, r: Option<Record>, workspace: string)
    requires Matches(ev, r, workspace) && r.Some? && r.value.archived
    ensures ev.Some? && ev.value.source.status == Archived
  {
  }

  lemma NoForeign(scope: Scope, tracked: set<string>)
    ensures Foreign([], scope, tracked)
  {
  }

  lemma FourWorlds(worlds: seq<World>, between: seq<seq<OtherSync>>, snapshots: seq<seq<Content>>, codec: Codec, scope: Scope)
    requires SyncRun(worlds, between, snapshots, codec, scope)
    ensures |worlds| == |snapshots| + 1
  {
  }

  /** The three syncs. */
  lemma RestoredRun(a: Content, codec: Codec, scope: Scope, start: Pass) returns (worlds: seq<World>)
    requires |a.externalId| > 0
    ensures SyncRun(worlds, [[], [], []], [[a], [], [a]], codec, scope) && |worlds| == 4 && worlds[0].store == start
    ensures Lookup(worlds[3].items, a.externalId) == Some(SyncItem(a.externalId, Some(HashOf(codec, a)), SyncState.Unchanged))
  {
    hide HashOf, NextEvidenceStore, Seen, AfterOthers;
    var id, h := a.externalId, Some(HashOf(codec, a));
    var i1, i2, i3 := SyncItem(id, h, New), SyncItem(id, h, DeletedRemote), SyncItem(id, h, SyncState.Unchanged);
    var p1 := NextEvidenceStore(start, [], [a], codec, scope);
    var p2 := NextEvidenceStore(p1, [i1], [], codec, scope);
    var p3 := NextEvidenceStore(p2, [i2], [a], codec, scope);
    worlds := [World([], start), World([i1], p1), World([i2], p2), World([i3], p3)];
    SeenOne(a);
    OneEntry([], [a], codec, i1);
    OneEntry([i1], [], codec, i2);
    OneEntry([i2], [a], codec, i3);
    NoOthers(start, codec, scope);
    NoOthers(p1, codec, scope);
    NoOthers(p2, codec, scope);
  }

  lemma Recurs(a: Content, codec: Codec, scope: Scope, id: string)
    requires !IsEmpty(a) && id == a.externalId && |id| > 0
    ensures GoneSince([[a], [], [a]], 1, 3, codec, id)
    ensures Harmless(WithIds([a]), codec) && Harmless(WithIds([]), codec)
  {
    hide HashOf, TextOf, IsEmpty;
    var snapshots := [[a], [], [a]];
    assert [a][..0] == [];
    assert WithIds([a]) == [a];
    assert ContentsOf([a], id) == [a] && ContentsOf([], id) == [];
    assert snapshots[..1] == [[a]] && [[a]][..0] == [];
    assert RecordOf([[a]], id, codec) == NextRecord(RecordOf([], id, codec), ContentsOf([a], id), codec);
    assert FoldRecord(None, [a], codec) == OneRecord(FoldRecord(None, [], codec), a, codec);
  }

  lemma SeenOne(a: Content)
    requires |a.externalId| > 0
    ensures forall e :: Seen([a], e) == (if e == a.externalId then Some(a) else None) && Seen([], e).None?
  {
    forall e ensures Seen([], e).None? {
    }
    hide Seen;
    forall e ensures Seen([a], e) == if e == a.externalId then Some(a) else None {
      SeenAppend([], a, e);
      assert [] + [a] == [a];
    }
  }

  lemma OneEntry(before: seq<SyncItem>, contents: seq<Content>, codec: Codec, item: SyncItem)
    requires |before| <= 1 && (|before| == 1 ==> before[0].externalId == item.externalId)
    requires NextItem(Lookup(before, item.externalId), item.externalId, Seen(contents, item.externalId), codec) == Some(item)
    requires forall id :: id != item.externalId ==> Seen(contents, id).None?
    ensures Synced(before, contents, codec, [item])
  {
    hide HashOf, StatusFor, Seen;
    forall id ensures Lookup([item], id) == NextItem(Lookup(before, id), id, Seen(contents, id), codec) {
      LookupNone(before, id);
      LookupNone([item], id);
    }
  }

  /** A first sync that finds one content adds one source. */
  lemma FirstSync(p: Pass, c: Content, codec: Codec, scope: Scope)
    requires p.leftOver.None? && |scope.workspace| > 0 && |c.externalId| > 0 && !IsEmpty(c)
    requires FindExisting(p.sources, scope.connector, c.externalId).None?
    ensures var q := NextEvidenceStore(p, [], [c], codec, scope);
            && q.sources == Put(p.sources, NewSource(p.next, scope.connector, c, HashOf(codec, c)))
            && q.next == p.next + 1 && q.leftOver.None?
  {
    hide HashOf, PersistOne, PersistAll, CountStatus, WithIds, Put, FindExisting;
    OneCounted(c, codec);
    OnePersisted(p, c, codec, scope);
    OneWritten(p, c, codec, scope);
  }

  lemma OneCounted(c: Content, codec: Codec)
    requires |c.externalId| > 0
    ensures CountStatus([], [c], codec, New) > 0 && WithIds([c]) == [c]
  {
    hide HashOf;
    assert [c][..0] == [];
    assert CountStatus([], [c], codec, New) == CountStatus([], [], codec, New) + 1;
  }

  lemma OnePersisted(p: Pass, c: Content, codec: Codec, scope: Scope)
    requires p.leftOver.None?
    ensures PersistAll(Pass(p.sources, p.dirs, p.next, None), [c], codec, scope.connector, scope.workspace)
         == PersistOne(p, c, codec, scope.connector, scope.workspace)
  {
    hide PersistOne;
    assert [c][..0] == [];
    assert p == Pass(p.sources, p.dirs, p.next, None);
    assert PersistAll(p, [], codec, scope.connector, scope.workspace) == p;
    assert PersistAll(p, [c], codec, scope.connector, scope.workspace)
        == PersistOne(PersistAll(p, [], codec, scope.connector, scope.workspace), c, codec, scope.connector, scope.workspace);
  }

  lemma OneWritten(p: Pass, c: Content, codec: Codec, scope: Scope)
    requires !IsEmpty(c) && FindExisting(p.sources, scope.connector, c.externalId).None?
    ensures var q := PersistOne(p, c, codec, scope.connector, scope.workspace);
            q.sources == Put(p.sources, NewSource(p.next, scope.connector, c, HashOf(codec, c))) && q.next == p.next + 1
  {
    hide HashOf, TextOf, WriteChunks, ToSave, Put, FindExisting;
  }

  /** Two connectors of a workspace have the same external id; when the item is gone from the second,
      its next sync archives the source of the first, and leaves its own as it is. */
  lemma OtherConnectorExample(c: Content, codec: Codec, workspace: string, first: string, second: string)
    returns (items: seq<SyncItem>, sources: seq<DataSource>)
    requires |workspace| > 0 && |first| > 0 && |second| > 0 && first != second && |c.externalId| > 0 && !IsEmpty(c)
    ensures var a, b := Scope(workspace, first), Scope(workspace, second);
            && Synced([], [c], codec, items)
            && sources == NextEvidenceStore(NextEvidenceStore(NextEvidenceStore(Pass([], map[], 0, None), [], [c], codec, a), [], [c], codec, b),
                                            items, [], codec, b).sources
    ensures |sources| == 2
    ensures Owns(sources[0], first, c.externalId) && sources[0].status == Archived
    ensures Owns(sources[1], second, c.externalId) && sources[1].status == Parsed
  {
    hide HashOf, IsEmpty, NextEvidenceStore;
    var a, b := Scope(workspace, first), Scope(workspace, second);
    items := [SyncItem(c.externalId, Some(HashOf(codec, c)), New)];
    SeenOne(c);
    OneEntry([], [c], codec, items[0]);
    var q := TwoSources(c, codec, workspace, first, second);
    sources := NextEvidenceStore(q, items, [], codec, b).sources;
    ArchivesFirst(q, c, codec, b, NewSource(0, first, c, HashOf(codec, c)), NewSource(1, second, c, HashOf(codec, c)), New);
  }

  lemma TwoSources(c: Content, codec: Codec, workspace: string, first: string, second: string) returns (q: Pass)
    requires |workspace| > 0 && |first| > 0 && |second| > 0 && first != second && |c.externalId| > 0 && !IsEmpty(c)
    ensures q == NextEvidenceStore(NextEvidenceStore(Pass([], map[], 0, None), [], [c], codec, Scope(workspace, first)),
                                   [], [c], codec, Scope(workspace, second))
    ensures q.sources == [NewSource(0, first, c, HashOf(codec, c)), NewSource(1, second, c, HashOf(codec, c))]
  {
    hide HashOf, IsEmpty, NextEvidenceStore;
    var start, x := Pass([], map[], 0, None), NewSource(0, first, c, HashOf(codec, c));
    FirstSync(start, c, codec, Scope(workspace, first));
    var p := NextEvidenceStore(start, [], [c], codec, Scope(workspace, first));
    assert p.sources == [x];
    assert !Owns(x, second, c.externalId);
    assert FirstOwned([x], second, c.externalId) == FirstOwned([x][1..], second, c.externalId);
    FirstSync(p, c, codec, Scope(workspace, second));
    q := NextEvidenceStore(p, [], [c], codec, Scope(workspace, second));
  }

  lemma ArchivesFirst(q: Pass, c: Content, codec: Codec, scope: Scope, x: DataSource, y: DataSource, status: SyncState.Status)
    requires q.sources == [x, y] && |scope.workspace| > 0 && |c.externalId| > 0 && status != DeletedRemote
    requires Has(x, EXTERNAL, c.externalId) && x.status != Archived
    ensures NextEvidenceStore(q, [SyncItem(c.externalId, Some(HashOf(codec, c)), status)], [], codec, scope).sources == [AsArchived(x), y]
  {
    hide HashOf, ArchiveOne, Gone;
    var items := [SyncItem(c.externalId, Some(HashOf(codec, c)), status)];
    OneGone(items[0]);
    assert [c.externalId][..0] == [];
    assert ArchiveAll(q.sources, [c.externalId]) == ArchiveOne(ArchiveAll(q.sources, []), c.externalId);
    FirstArchived(x, y, c.externalId);
  }

  lemma OneGone(item: SyncItem)
    requires item.status != DeletedRemote
    ensures Gone([item], []) == [item.externalId]
  {
    assert [item][..0] == [];
    assert Gone([item], []) == Gone([], []) + [item.externalId];
  }

  lemma FirstArchived(x: DataSource, y: DataSource, id: string)
    requires Has(x, EXTERNAL, id) && x.status != Archived
    ensures ArchiveOne([x, y], id) == [AsArchived(x), y]
  {
    assert FirstWith([x, y], EXTERNAL, id) == Some(x);
    assert [x, y][1..] == [y];
  }
}
