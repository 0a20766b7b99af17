/** Turning fetched content into data sources and chunks
    (src/decision_system/connectors/evidence_bridge.py). */
module EvidenceBridge {
  import opened Prelude
  import opened Contents
  import opened Chunking
  import opened DataSources

  const CONNECTOR := "connector_id"
  const EXTERNAL := "external_id"

  predicate Owns(ds: DataSource, connector: string, externalId: string) {
    Has(ds, CONNECTOR, connector) && Has(ds, EXTERNAL, externalId)
  }

  /** The first source of a connector's item. */
  function FirstOwned(l: seq<DataSource>, connector: string, externalId: string): Option<DataSource> {
    if |l| == 0 then None
    else if Owns(l[0], connector, externalId) then Some(l[0])
    else FirstOwned(l[1..], connector, externalId)
  }

  function FindExisting(l: seq<DataSource>, connector: string, externalId: string): Option<DataSource> {
    if |connector| == 0 || |externalId| == 0 then None else FirstOwned(l, connector, externalId)
  }

  /** What one pass over fetched content works on: the sources, the chunk directories, the next
      fresh id, and the chunk list left over from the last item whose text was parsed. */
  datatype Pass = Pass(
    sources: seq<DataSource>, dirs: map<SourceId, map<ChunkId, Chunk>>, next: SourceId, leftOver: Option<seq<Chunk>>)

  function NewSource(id: SourceId, connector: string, item: Content, hash: Hash): DataSource {
    DataSource(id, item.title, hash, Parsed, map[CONNECTOR := connector, EXTERNAL := item.externalId])
  }

  /** The chunks that are saved after an item: those of its text, or the left-over ones when the
      text is blank. */
  function ToSave(p: Pass, text: string, id: SourceId, workspace: string): Option<seq<Chunk>> {
    if |Strip(text)| > 0 then Some(Chunks(ParsedTexts(text), id, workspace, 0)) else p.leftOver
  }

  /** One item of the pass. */
  function PersistOne(p: Pass, item: Content, codec: Codec, connector: string, workspace: string): Pass {
    var hash := HashOf(codec, item);
    var existing := FindExisting(p.sources, connector, item.externalId);
    if IsEmpty(item) || (existing.Some? && existing.value.hash == hash) then p
    else
      var id := if existing.Some? then existing.value.id else p.next;
      var ds := if existing.Some? then DataSource(id, existing.value.name, hash, Parsed, existing.value.metadata)
                else NewSource(id, connector, item, hash);
      var toSave := ToSave(p, TextOf(codec, item), id, workspace);
      var dirs := if existing.Some? then p.dirs - {id} else p.dirs;
      Pass(Put(p.sources, ds),
           if toSave.Some? then WriteChunks(dirs, toSave.value) else dirs,
           if existing.Some? then p.next else p.next + 1,
           toSave)
  }

  function PersistAll(p: Pass, items: seq<Content>, codec: Codec, connector: string, workspace: string): Pass {
    if items == [] then p
    else PersistOne(PersistAll(p, items[..|items| - 1], codec, connector, workspace), items[|items| - 1], codec, connector, workspace)
  }

  ghost predicate WellFormed(p: Pass) {
    && UniqueSources(p.sources)
    && (forall i :: 0 <= i < |p.sources| ==> p.sources[i].id < p.next)
    && (forall id :: id in p.dirs ==> id < p.next)
    && (p.leftOver.Some? ==> forall i :: 0 <= i < |p.leftOver.value| ==> p.leftOver.value[i].sourceId < p.next)
  }

  lemma {:induction false} FirstOwnedIn(l: seq<DataSource>, connector: string, externalId: string) returns (i: nat)
    requires FirstOwned(l, connector, externalId).Some?
    ensures i < |l| && FirstOwned(l, connector, externalId) == Some(l[i]) && Owns(l[i], connector, externalId)
  {
    if Owns(l[0], connector, externalId) {
      i := 0;
    } else {
      i := FirstOwnedIn(l[1..], connector, externalId);
      i := i + 1;
    }
  }

  lemma {:induction false} FirstOwnedNone(l: seq<DataSource>, connector: string, externalId: string)
    ensures FirstOwned(l, connector, externalId).None? <==> forall i :: 0 <= i < |l| ==> !Owns(l[i], connector, externalId)
  {
    if |l| > 0 {
      assert l == [l[0]] + l[1..];
      FirstOwnedNone(l[1..], connector, externalId);
    }
  }

  lemma WriteBounds(dirs: map<SourceId, map<ChunkId, Chunk>>, chunks: seq<Chunk>, next: SourceId)
    requires forall id :: id in dirs ==> id < next
    requires forall i :: 0 <= i < |chunks| ==> chunks[i].sourceId < next
    ensures forall id :: id in WriteChunks(dirs, chunks) ==> id < next
  {
  }

  lemma PersistOneWellFormed(p: Pass, item: Content, codec: Codec, connector: string, workspace: string)
    requires WellFormed(p)
    ensures WellFormed(PersistOne(p, item, codec, connector, workspace))
  {
    hide WriteChunks, HashOf, TextOf, Strip, ParsedTexts, Put, FirstOwned;
    var q := PersistOne(p, item, codec, connector, workspace);
    var existing := FindExisting(p.sources, connector, item.externalId);
    if q != p {
      var id := if existing.Some? then existing.value.id else p.next;
      if existing.Some? {
        var i := FirstOwnedIn(p.sources, connector, item.externalId);
      }
      var ds :| q.sources == Put(p.sources, ds) && ds.id == id;
      PutAt(p.sources, ds);
      PutMembers(p.sources, ds);
      forall i | 0 <= i < |q.sources| ensures q.sources[i].id < q.next {
        assert q.sources[i] in q.sources;
      }
      if q.leftOver.Some? {
        WriteBounds(if existing.Some? then p.dirs - {id} else p.dirs, q.leftOver.value, q.next);
      }
    }
  }

  /** An item that is saved changes the store. */
  lemma SavedChanges(p: Pass, item: Content, codec: Codec, connector: string, workspace: string)
    requires WellFormed(p)
    ensures var existing := FindExisting(p.sources, connector, item.externalId);
            PersistOne(p, item, codec, connector, workspace) != p <==>
            !IsEmpty(item) && !(existing.Some? && existing.value.hash == HashOf(codec, item))
  {
    hide WriteChunks, HashOf, TextOf, Strip, ParsedTexts, Put, FirstOwned, ToSave;
    var existing := FindExisting(p.sources, connector, item.externalId);
    if existing.Some? && existing.value.hash != HashOf(codec, item) {
      var i := FirstOwnedIn(p.sources, connector, item.externalId);
      PutAt(p.sources, DataSource(existing.value.id, existing.value.name, HashOf(codec, item), Parsed, existing.value.metadata));
    }
  }

  /** Item `n` of the pass changes the store. */
  ghost predicate StepChanges(p: Pass, items: seq<Content>, n: int, codec: Codec, connector: string, workspace: string)
    requires 0 <= n < |items|
  {
    PersistAll(p, items[..n + 1], codec, connector, workspace) != PersistAll(p, items[..n], codec, connector, workspace)
  }

  /** The loop of `persist_connector_content`: it takes the store through the pass, item by item,
      without any demand on the items, and counts those that change it. */
  method PersistConnectorContent(store: DataSourceStore, items: seq<Content>, codec: Codec, connector: string)
    returns (sourcesSaved: nat)
    requires store.Valid()
    modifies store
    ensures store.Valid()
    ensures var p := PersistAll(Pass(old(store.Sources()), old(store.dirs), old(store.nextSource), None), items, codec, connector, store.workspaceId);
            store.Sources() == p.sources && store.dirs == p.dirs && store.nextSource == p.next
    ensures var start := Pass(old(store.Sources()), old(store.dirs), old(store.nextSource), None);
            sourcesSaved == |set n | 0 <= n < |items| && StepChanges(start, items, n, codec, connector, store.workspaceId)|
  {
    hide PersistOne, WriteChunks, HashOf, TextOf, Strip, ParsedTexts;
    sourcesSaved := 0;
    ghost var start := Pass(store.Sources(), store.dirs, store.nextSource, None);
    var leftOver: Option<seq<Chunk>> := None;
    ghost var changing: set<int> := {};
    StoreWellFormed(store);
    for n := 0 to |items|
      invariant store.Valid()
      invariant Pass(store.Sources(), store.dirs, store.nextSource, leftOver) == PersistAll(start, items[..n], codec, connector, store.workspaceId)
      invariant WellFormed(Pass(store.Sources(), store.dirs, store.nextSource, leftOver))
      invariant sourcesSaved == |changing| && forall k :: k in changing <==> 0 <= k < n && StepChanges(start, items, k, codec, connector, store.workspaceId)
    {
      assert items[..n + 1][..n] == items[..n];
      var saved;
      saved, leftOver := PersistItem(store, items[n], codec, connector, leftOver);
      sourcesSaved := sourcesSaved + if saved then 1 else 0;
      if saved {
        changing := changing + {n};
      }
    }
    assert items[..|items|] == items;
    assert changing == set n | 0 <= n < |items| && StepChanges(start, items, n, codec, connector, store.workspaceId);
  }

  lemma StoreWellFormed(store: DataSourceStore)
    requires store.Valid()
    ensures WellFormed(Pass(store.Sources(), store.dirs, store.nextSource, None))
  {
    ConsistentListing(store.index, store.records);
    ListingAt(store.index, store.records);
    forall i | 0 <= i < |store.Sources()| ensures store.Sources()[i].id < store.nextSource {
      assert store.index[i] in store.records;
    }
  }

  method FindExistingDataSource(store: DataSourceStore, connector: string, externalId: string) returns (ds: Option<DataSource>)
    ensures ds == FindExisting(store.Sources(), connector, externalId)
  {
    if |connector| == 0 || |externalId| == 0 {
      return None;
    }
    var sources := store.ListByWorkspace();
    for n := 0 to |sources|
      invariant FirstOwned(sources, connector, externalId) == FirstOwned(sources[n..], connector, externalId)
    {
      if Owns(sources[n], connector, externalId) {
        return Some(sources[n]);
      }
    }
    ds := None;
  }

  method PersistItem(store: DataSourceStore, item: Content, codec: Codec, connector: string, leftOver: Option<seq<Chunk>>)
    returns (saved: bool, chunks: Option<seq<Chunk>>)
    requires store.Valid() && WellFormed(Pass(store.Sources(), store.dirs, store.nextSource, leftOver))
    modifies store
    ensures store.Valid() && WellFormed(Pass(store.Sources(), store.dirs, store.nextSource, chunks))
    ensures Pass(store.Sources(), store.dirs, store.nextSource, chunks)
         == PersistOne(Pass(old(store.Sources()), old(store.dirs), old(store.nextSource), leftOver), item, codec, connector, store.workspaceId)
    ensures saved == (Pass(store.Sources(), store.dirs, store.nextSource, chunks)
                      != Pass(old(store.Sources()), old(store.dirs), old(store.nextSource), leftOver))
  {
    hide WriteChunks, HashOf, TextOf, Strip, ParsedTexts, Listing, Put, FirstOwned, Consistent, Chunks;
    PersistOneWellFormed(Pass(store.Sources(), store.dirs, store.nextSource, leftOver), item, codec, connector, store.workspaceId);
    SavedChanges(Pass(store.Sources(), store.dirs, store.nextSource, leftOver), item, codec, connector, store.workspaceId);
    if item.text == "" && item.bytes == [] {
      return false, leftOver;
    }
    var hash := HashOf(codec, item);
    var existing := FindExistingDataSource(store, connector, item.externalId);
    var id: SourceId;
    if existing.Some? {
      if existing.value.hash == hash {
        return false, leftOver;
      }
      id := existing.value.id;
      ghost var i := FirstOwnedIn(store.Sources(), connector, item.externalId);
      store.DeleteChunks(id);
      store.Save(DataSource(id, existing.value.name, hash, Parsed, existing.value.metadata));
    } else {
      id := store.DrawId();
      store.Save(NewSource(id, connector, item, hash));
    }
    saved := true;
    var text := TextOf(codec, item);
    chunks := leftOver;
    if |Strip(text)| > 0 {
      var parsed := ParseText(text, id, store.workspaceId);
      chunks := Some(parsed);
    }
    if chunks.Some? {
      store.SaveChunks(chunks.value);
    }
  }
}
