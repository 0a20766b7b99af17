/** What the evidence bridge does to one item at a time
    (src/decision_system/connectors/evidence_bridge.py). */
module EvidenceHistory {
  import opened Prelude
  import opened Contents
  import opened Chunking
  import opened DataSources
  import opened EvidenceBridge

  /** The evidence of an item: its data source and the chunks stored for it. */
  datatype Evidence = Evidence(source: DataSource, chunks: map<ChunkId, Chunk>)

  function DirOf(dirs: map<SourceId, map<ChunkId, Chunk>>, id: SourceId): map<ChunkId, Chunk> {
    if id in dirs then dirs[id] else map[]
  }

  function EvidenceOf(p: Pass, connector: string, externalId: string): Option<Evidence> {
    var ds := FindExisting(p.sources, connector, externalId);
    if ds.Some? then Some(Evidence(ds.value, DirOf(p.dirs, ds.value.id))) else None
  }

  /** A directory that holds exactly these chunks. */
  function ChunkMap(chunks: seq<Chunk>): map<ChunkId, Chunk> {
    if chunks == [] then map[]
    else ChunkMap(chunks[..|chunks| - 1])[chunks[|chunks| - 1].id := chunks[|chunks| - 1]]
  }

  /** The chunks of a text under a source. */
  function ChunksOf(text: string, id: SourceId, workspace: string): seq<Chunk> {
    Chunks(ParsedTexts(text), id, workspace, 0)
  }

  /** What a fetched content makes of the evidence of its item: empty content and content with the
      recorded hash leave it alone; anything else replaces the hash and all the chunks, under the
      same source if there was one. The one exception is a blank text while the left-over chunks
      are those of the item itself: then its old chunks stay. */
  function NextEvidence(before: Option<Evidence>, item: Content, drawn: SourceId, stale: bool, codec: Codec,
                        connector: string, workspace: string): Option<Evidence> {
    var hash := HashOf(codec, item);
    if IsEmpty(item) || (before.Some? && before.value.source.hash == hash) then before
    else
      var id := if before.Some? then before.value.source.id else drawn;
      var ds := if before.Some? then DataSource(id, before.value.source.name, hash, Parsed, before.value.source.metadata)
                else NewSource(id, connector, item, hash);
      var text := TextOf(codec, item);
      Some(Evidence(ds, if stale && before.Some? && |Strip(text)| == 0 then before.value.chunks
                        else ChunkMap(ChunksOf(text, id, workspace))))
  }

  /** The source of an item keeps the id, the name and the metadata it was made with; a new one is named by
      the title of the content; and a content that makes a difference leaves its hash, and a source that is
      not archived. */
  lemma SourceTells(before: Option<Evidence>, item: Content, drawn: SourceId, stale: bool, codec: Codec, connector: string, workspace: string)
    ensures var after := NextEvidence(before, item, drawn, stale, codec, connector, workspace);
            && (before.Some? ==>
                  && after.Some? && after.value.source.id == before.value.source.id && after.value.source.name == before.value.source.name
                  && after.value.source.metadata == before.value.source.metadata)
            && (before.None? && after.Some? ==>
                  && after.value.source.id == drawn && after.value.source.name == item.title
                  && Owns(after.value.source, connector, item.externalId))
            && (before.None? && (item.text != "" || item.bytes != []) ==> after.Some?)
            && (after != before ==> after.value.source.hash == HashOf(codec, item) && after.value.source.status == Parsed)
  {
    hide HashOf, TextOf, Strip, ParsedTexts, Chunks, ChunkMap;
  }

  /** Chunks of one source written to a directory that was empty. */
  lemma {:induction false} WriteOwn(dirs: map<SourceId, map<ChunkId, Chunk>>, chunks: seq<Chunk>, id: SourceId)
    requires id !in dirs
    requires forall i :: 0 <= i < |chunks| ==> chunks[i].sourceId == id
    ensures DirOf(WriteChunks(dirs, chunks), id) == ChunkMap(chunks)
    ensures forall x :: x != id ==> DirOf(WriteChunks(dirs, chunks), x) == DirOf(dirs, x)
  {
    if chunks != [] {
      WriteOwn(dirs, chunks[..|chunks| - 1], id);
    }
  }

  ghost predicate Stored(dirs: map<SourceId, map<ChunkId, Chunk>>, chunks: seq<Chunk>) {
    forall i :: 0 <= i < |chunks| ==>
                  var c := chunks[i]; c.sourceId in dirs && c.id in dirs[c.sourceId] && dirs[c.sourceId][c.id] == c
  }

  /** Writing chunks that are stored already changes nothing. */
  lemma {:induction false} WriteStored(dirs: map<SourceId, map<ChunkId, Chunk>>, chunks: seq<Chunk>)
    requires Stored(dirs, chunks)
    ensures WriteChunks(dirs, chunks) == dirs
  {
    if chunks != [] {
      var c := chunks[|chunks| - 1];
      WriteStored(dirs, chunks[..|chunks| - 1]);
      assert dirs[c.sourceId][c.id := c] == dirs[c.sourceId];
    }
  }

  /** The chunks of a text have different identifiers, so none overwrites another. */
  lemma {:induction false} ChunkMapHolds(chunks: seq<Chunk>)
    requires forall i, j :: 0 <= i < j < |chunks| ==> chunks[i].id != chunks[j].id
    ensures forall i :: 0 <= i < |chunks| ==> chunks[i].id in ChunkMap(chunks) && ChunkMap(chunks)[chunks[i].id] == chunks[i]
    ensures forall id :: id in ChunkMap(chunks) ==> ChunkMap(chunks)[id] in chunks && ChunkMap(chunks)[id].id == id
  {
    if chunks != [] {
      ChunkMapHolds(chunks[..|chunks| - 1]);
    }
  }

  lemma ChunkIdsDiffer(texts: seq<string>, id: SourceId, workspace: string)
    ensures var cs := Chunks(texts, id, workspace, 0);
            forall i, j :: 0 <= i < j < |cs| ==> cs[i].id != cs[j].id
  {
    hide Strip;
  }

  /** Chunks just written into an emptied directory are stored. */
  lemma OwnAreStored(dirs: map<SourceId, map<ChunkId, Chunk>>, texts: seq<string>, id: SourceId, workspace: string)
    requires id !in dirs
    ensures Stored(WriteChunks(dirs, Chunks(texts, id, workspace, 0)), Chunks(texts, id, workspace, 0))
  {
    hide Chunks;
    var cs := Chunks(texts, id, workspace, 0);
    OwnSource(texts, id, workspace);
    ChunkIdsDiffer(texts, id, workspace);
    WriteOwn(dirs, cs, id);
    ChunkMapHolds(cs);
  }

  lemma OwnSource(texts: seq<string>, id: SourceId, workspace: string)
    ensures forall i :: 0 <= i < |Chunks(texts, id, workspace, 0)| ==> Chunks(texts, id, workspace, 0)[i].sourceId == id
  {
    hide Strip;
  }

  // ------------------------------------------------------------------
  // Finding sources after a source has been set

  lemma {:induction false} FindPut(l: seq<DataSource>, ds: DataSource, connector: string, externalId: string)
    requires UniqueSources(l)
    requires forall i :: 0 <= i < |l| && l[i].id == ds.id ==> l[i].metadata == ds.metadata
    ensures FirstOwned(Put(l, ds), connector, externalId) ==
            match FirstOwned(l, connector, externalId)
            case Some(x) => if x.id == ds.id then Some(ds) else Some(x)
            case None => if Owns(ds, connector, externalId) then Some(ds) else None
  {
    if l == [] {
      assert [ds][1..] == [];
    } else if l[0].id == ds.id {
      assert Owns(l[0], connector, externalId) == Owns(ds, connector, externalId);
      assert ([ds] + l[1..])[1..] == l[1..];
      if !Owns(ds, connector, externalId) && FirstOwned(l, connector, externalId).Some? {
        var i := FirstOwnedIn(l[1..], connector, externalId);
        assert l[i + 1].id != l[0].id;
      }
    } else {
      assert ([l[0]] + Put(l[1..], ds))[1..] == Put(l[1..], ds);
      assert forall i :: 0 <= i < |l[1..]| ==> l[1..][i] == l[i + 1];
      FindPut(l[1..], ds, connector, externalId);
    }
  }

  /** A source belongs to at most one item of one connector. */
  lemma OwnsOne(ds: DataSource, c: string, e: string, c': string, e': string)
    requires Owns(ds, c, e) && Owns(ds, c', e')
    ensures c == c' && e == e'
  {
  }

  /** Two sources never belong to the same item. */
  ghost predicate AtMostOne(l: seq<DataSource>) {
    forall i, j, c, e :: 0 <= i < j < |l| && |c| > 0 && |e| > 0 && Owns(l[i], c, e) ==> !Owns(l[j], c, e)
  }

  lemma PutKeepsAtMostOne(l: seq<DataSource>, ds: DataSource)
    requires UniqueSources(l) && AtMostOne(l)
    requires forall i :: 0 <= i < |l| && l[i].id == ds.id ==> l[i].metadata == ds.metadata
    requires (forall i :: 0 <= i < |l| ==> l[i].id != ds.id) ==>
               forall i, c, e :: 0 <= i < |l| && |c| > 0 && |e| > 0 && Owns(l[i], c, e) ==> !Owns(ds, c, e)
    ensures AtMostOne(Put(l, ds))
  {
    hide Owns, Put, UniqueSources, AtMostOne;
    PutIs(l, ds);
    var k := IndexOf(l, ds.id);
    if k == |l| {
      AppendKeepsAtMostOne(l, ds);
    } else {
      UpdateKeepsAtMostOne(l, ds, k);
    }
  }

  lemma AppendKeepsAtMostOne(l: seq<DataSource>, ds: DataSource)
    requires AtMostOne(l)
    requires forall i, c, e :: 0 <= i < |l| && |c| > 0 && |e| > 0 && Owns(l[i], c, e) ==> !Owns(ds, c, e)
    ensures AtMostOne(l + [ds])
  {
    hide Owns;
  }

  lemma UpdateKeepsAtMostOne(l: seq<DataSource>, ds: DataSource, k: nat)
    requires AtMostOne(l) && k < |l| && l[k].metadata == ds.metadata
    ensures AtMostOne(l[k := ds])
  {
    hide Owns;
    forall c, e ensures Owns(ds, c, e) == Owns(l[k], c, e) {
      OwnsByMetadata(ds, l[k], c, e);
    }
  }

  lemma OwnsByMetadata(a: DataSource, b: DataSource, c: string, e: string)
    requires a.metadata == b.metadata
    ensures Owns(a, c, e) == Owns(b, c, e)
  {
  }

  // ------------------------------------------------------------------
  // One item of the pass

  /** The left-over chunks are all those of one source, and they are on file. */
  ghost predicate Home(p: Pass, id: SourceId) {
    && p.leftOver.Some? && id < p.next
    && (forall i :: 0 <= i < |p.leftOver.value| ==> p.leftOver.value[i].sourceId == id)
    && Stored(p.dirs, p.leftOver.value) && DirOf(p.dirs, id) == ChunkMap(p.leftOver.value)
  }

  ghost predicate AtHome(p: Pass) {
    p.leftOver.Some? ==> exists id :: Home(p, id)
  }

  /** Some left-over chunk belongs to this source. */
  ghost predicate LeftOverOf(p: Pass, id: SourceId) {
    p.leftOver.Some? && exists i :: 0 <= i < |p.leftOver.value| && p.leftOver.value[i].sourceId == id
  }

  ghost predicate Stale(p: Pass, connector: string, externalId: string) {
    var ds := FindExisting(p.sources, connector, externalId);
    ds.Some? && LeftOverOf(p, ds.value.id)
  }

  lemma ChunkMapNonEmpty(chunks: seq<Chunk>)
    ensures ChunkMap(chunks) == map[] <==> chunks == []
  {
    if chunks != [] {
      assert chunks[|chunks| - 1].id in ChunkMap(chunks);
    }
  }

  /** The chunks that an item gets when its source is written. */
  function NextChunks(p: Pass, text: string, id: SourceId, stale: bool, workspace: string): map<ChunkId, Chunk> {
    if stale && |Strip(text)| == 0 then DirOf(p.dirs, id) else ChunkMap(ChunksOf(text, id, workspace))
  }

  /** What saving the chunks of an item does to the directories, once its own has been emptied. */
  lemma SaveEffect(p: Pass, text: string, id: SourceId, workspace: string)
    returns (dirs: map<SourceId, map<ChunkId, Chunk>>)
    requires AtHome(p)
    ensures var toSave := ToSave(p, text, id, workspace);
            dirs == (if toSave.Some? then WriteChunks(p.dirs - {id}, toSave.value) else p.dirs - {id})
    ensures DirOf(dirs, id) == NextChunks(p, text, id, LeftOverOf(p, id), workspace)
    ensures forall x :: x != id ==> DirOf(dirs, x) == DirOf(p.dirs, x)
    ensures ToSave(p, text, id, workspace).Some? ==>
              && Stored(dirs, ToSave(p, text, id, workspace).value)
              && exists home :: (home == id || Home(p, home)) && DirOf(dirs, home) == ChunkMap(ToSave(p, text, id, workspace).value)
                                && forall i :: 0 <= i < |ToSave(p, text, id, workspace).value| ==>
                                     ToSave(p, text, id, workspace).value[i].sourceId == home
  {
    hide WriteChunks, Strip, ParsedTexts, Chunks;
    dirs := p.dirs - {id};
    VisibleHasChunks(text);
    NoChunks(id, workspace);
    if |Strip(text)| > 0 {
      OwnSource(ParsedTexts(text), id, workspace);
      OwnAreStored(dirs, ParsedTexts(text), id, workspace);
      WriteOwn(dirs, ChunksOf(text, id, workspace), id);
      dirs := WriteChunks(dirs, ChunksOf(text, id, workspace));
    } else if p.leftOver.Some? {
      var home :| Home(p, home);
      ChunkMapNonEmpty(p.leftOver.value);
      if home == id {
        WriteOwn(dirs, p.leftOver.value, id);
        dirs := WriteChunks(dirs, p.leftOver.value);
        SameStored(p.dirs, dirs, p.leftOver.value, id);
      } else {
        WriteStored(dirs, p.leftOver.value);
      }
    }
  }

  lemma SameStored(dirs: map<SourceId, map<ChunkId, Chunk>>, dirs': map<SourceId, map<ChunkId, Chunk>>, chunks: seq<Chunk>, id: SourceId)
    requires Stored(dirs, chunks) && DirOf(dirs', id) == DirOf(dirs, id)
    requires forall i :: 0 <= i < |chunks| ==> chunks[i].sourceId == id
    ensures Stored(dirs', chunks)
  {
  }

  lemma NoChunks(id: SourceId, workspace: string)
    ensures ChunkMap(Chunks([], id, workspace, 0)) == map[]
  {
  }

  /** An item that makes the pass write: there is something in it, and its hash is new. */
  predicate Changes(p: Pass, item: Content, codec: Codec, connector: string) {
    var existing := FindExisting(p.sources, connector, item.externalId);
    !IsEmpty(item) && !(existing.Some? && existing.value.hash == HashOf(codec, item))
  }

  function IdFor(p: Pass, item: Content, connector: string): SourceId {
    var existing := FindExisting(p.sources, connector, item.externalId);
    if existing.Some? then existing.value.id else p.next
  }

  /** The source that an item writes. */
  lemma Written(p: Pass, item: Content, codec: Codec, connector: string, workspace: string) returns (ds: DataSource)
    requires WellFormed(p) && Changes(p, item, codec, connector)
    ensures var existing := FindExisting(p.sources, connector, item.externalId);
            && ds.id == IdFor(p, item, connector)
            && ds == (if existing.Some? then DataSource(ds.id, existing.value.name, HashOf(codec, item), Parsed, existing.value.metadata)
                      else NewSource(ds.id, connector, item, HashOf(codec, item)))
            && (existing.None? ==> ds.id !in p.dirs && forall i :: 0 <= i < |p.sources| ==> p.sources[i].id != ds.id)
    ensures Owns(ds, connector, item.externalId)
    ensures forall c, e :: Owns(ds, c, e) ==> c == connector && e == item.externalId
    ensures PersistOne(p, item, codec, connector, workspace).sources == Put(p.sources, ds)
    ensures forall i :: 0 <= i < |p.sources| && p.sources[i].id == ds.id ==> p.sources[i].metadata == ds.metadata
  {
    hide HashOf, TextOf, ToSave, Put;
    var existing := FindExisting(p.sources, connector, item.externalId);
    var hash := HashOf(codec, item);
    if existing.Some? {
      var i := FirstOwnedIn(p.sources, connector, item.externalId);
      ds := DataSource(existing.value.id, existing.value.name, hash, Parsed, existing.value.metadata);
    } else {
      ds := NewSource(p.next, connector, item, hash);
    }
  }

  /** The directories after an item, and where the left-over chunks are then. */
  lemma PersistOneDirs(p: Pass, item: Content, codec: Codec, connector: string, workspace: string)
    requires WellFormed(p) && AtHome(p)
    ensures var q := PersistOne(p, item, codec, connector, workspace);
            AtHome(q)
    ensures var q, id, text := PersistOne(p, item, codec, connector, workspace), IdFor(p, item, connector), TextOf(codec, item);
            Changes(p, item, codec, connector) ==>
              && DirOf(q.dirs, id) == NextChunks(p, text, id, LeftOverOf(p, id), workspace)
              && forall x :: x != id ==> DirOf(q.dirs, x) == DirOf(p.dirs, x)
  {
    hide WriteChunks, HashOf, TextOf, Strip, ParsedTexts, Put, FirstOwned, NextChunks;
    if Changes(p, item, codec, connector) {
      var ds := Written(p, item, codec, connector, workspace);
      var text := TextOf(codec, item);
      assert p.dirs - {ds.id} == if FindExisting(p.sources, connector, item.externalId).Some? then p.dirs - {ds.id} else p.dirs;
      var dirs := SaveEffect(p, text, ds.id, workspace);
      var q := PersistOne(p, item, codec, connector, workspace);
      assert q.dirs == dirs && q.leftOver == ToSave(p, text, ds.id, workspace);
      BelowNext(p, item, connector);
      if q.leftOver.Some? {
        var home :| (home == ds.id || Home(p, home)) && DirOf(dirs, home) == ChunkMap(q.leftOver.value)
                    && forall i :: 0 <= i < |q.leftOver.value| ==> q.leftOver.value[i].sourceId == home;
        assert Home(q, home);
      }
    }
  }

  lemma BelowNext(p: Pass, item: Content, connector: string)
    requires WellFormed(p)
    ensures FindExisting(p.sources, connector, item.externalId).Some? ==> IdFor(p, item, connector) < p.next
  {
    if FindExisting(p.sources, connector, item.externalId).Some? {
      var i := FirstOwnedIn(p.sources, connector, item.externalId);
    }
  }

  /** One item of the pass changes the evidence of that item as `NextEvidence` says, and the
      evidence of nothing else. */
  lemma PersistOneEvidence(p: Pass, item: Content, codec: Codec, connector: string, workspace: string, c: string, e: string)
    requires WellFormed(p) && AtHome(p)
    ensures var q := PersistOne(p, item, codec, connector, workspace);
            EvidenceOf(q, c, e) ==
            if c == connector && e == item.externalId && |c| > 0 && |e| > 0
            then NextEvidence(EvidenceOf(p, c, e), item, p.next, Stale(p, c, e), codec, connector, workspace)
            else EvidenceOf(p, c, e)
  {
    hide WriteChunks, HashOf, TextOf, Strip, ParsedTexts, Put, FirstOwned, ToSave, AtHome, LeftOverOf;
    if Changes(p, item, codec, connector) {
      var ds := Written(p, item, codec, connector, workspace);
      PersistOneDirs(p, item, codec, connector, workspace);
      FindPut(p.sources, ds, c, e);
      NotLeftOver(p);
      if |c| > 0 && |e| > 0 && FirstOwned(p.sources, c, e).Some? {
        var i := FirstOwnedIn(p.sources, c, e);
      }
    }
  }

  /** A source that is new has no left-over chunks. */
  lemma NotLeftOver(p: Pass)
    requires WellFormed(p)
    ensures !LeftOverOf(p, p.next)
  {
  }

  /** Exactly when a content that is written leaves the wrong chunks: when its text is blank while
      the left-over chunks are those of its own source. Otherwise its source has just the chunks of
      its text. */
  lemma ChunksRightIff(p: Pass, item: Content, codec: Codec, connector: string, workspace: string)
    requires WellFormed(p) && AtHome(p) && Changes(p, item, codec, connector)
    ensures var q, id, text := PersistOne(p, item, codec, connector, workspace), IdFor(p, item, connector), TextOf(codec, item);
            DirOf(q.dirs, id) == ChunkMap(ChunksOf(text, id, workspace)) <==> !(|Strip(text)| == 0 && LeftOverOf(p, id))
  {
    hide PersistOne, HashOf, TextOf, Strip, ParsedTexts, Chunks;
    PersistOneDirs(p, item, codec, connector, workspace);
    var id, text := IdFor(p, item, connector), TextOf(codec, item);
    if |Strip(text)| == 0 && LeftOverOf(p, id) {
      var home :| Home(p, home);
      ChunkMapNonEmpty(p.leftOver.value);
      VisibleHasChunks(text);
      NoChunks(id, workspace);
    }
  }

  /** Whatever the contents are, an item never gets a second source. */
  lemma PersistOneAtMostOne(p: Pass, item: Content, codec: Codec, connector: string, workspace: string)
    requires WellFormed(p) && AtMostOne(p.sources)
    ensures AtMostOne(PersistOne(p, item, codec, connector, workspace).sources)
  {
    hide WriteChunks, HashOf, TextOf, Put, FirstOwned, ToSave, Owns, AtMostOne;
    var existing := FindExisting(p.sources, connector, item.externalId);
    if Changes(p, item, codec, connector) {
      var ds := Written(p, item, codec, connector, workspace);
      if existing.Some? {
        var i := FirstOwnedIn(p.sources, connector, item.externalId);
      } else {
        NewOwner(p.sources, ds, connector, item.externalId);
      }
      PutKeepsAtMostOne(p.sources, ds);
    }
  }

  lemma NewOwner(l: seq<DataSource>, ds: DataSource, connector: string, externalId: string)
    requires FindExisting(l, connector, externalId).None?
    requires forall c, e :: Owns(ds, c, e) ==> c == connector && e == externalId
    ensures forall i, c, e :: 0 <= i < |l| && |c| > 0 && |e| > 0 && Owns(l[i], c, e) ==> !Owns(ds, c, e)
  {
    hide Owns;
    FirstOwnedNone(l, connector, externalId);
  }

  // ------------------------------------------------------------------
  // A whole pass

  /** What every pass keeps, whatever its contents are. */
  lemma {:induction false} PassInvariant(p: Pass, items: seq<Content>, codec: Codec, connector: string, workspace: string)
    requires WellFormed(p) && AtHome(p)
    ensures var q := PersistAll(p, items, codec, connector, workspace);
            WellFormed(q) && AtHome(q) && (AtMostOne(p.sources) ==> AtMostOne(q.sources))
  {
    hide PersistOne, AtHome, AtMostOne, WellFormed;
    if items != [] {
      var n := |items| - 1;
      PassInvariant(p, items[..n], codec, connector, workspace);
      var r := PersistAll(p, items[..n], codec, connector, workspace);
      PersistOneWellFormed(r, items[n], codec, connector, workspace);
      PersistOneDirs(r, items[n], codec, connector, workspace);
      if AtMostOne(p.sources) {
        PersistOneAtMostOne(r, items[n], codec, connector, workspace);
      }
    }
  }

  /** The state of a pass when the first `n` contents have been handled. */
  function At(p: Pass, items: seq<Content>, n: nat, codec: Codec, connector: string, workspace: string): Pass
    requires n <= |items|
  {
    PersistAll(p, items[..n], codec, connector, workspace)
  }

  lemma AtNext(p: Pass, items: seq<Content>, n: nat, codec: Codec, connector: string, workspace: string)
    requires n < |items|
    ensures At(p, items, n + 1, codec, connector, workspace)
         == PersistOne(At(p, items, n, codec, connector, workspace), items[n], codec, connector, workspace)
  {
    assert items[..n + 1][..n] == items[..n];
  }

  /** The content that was parsed last among the first `n`. */
  function LastParsed(p: Pass, items: seq<Content>, n: nat, codec: Codec, connector: string, workspace: string): (j: Option<nat>)
    requires n <= |items|
    ensures j.Some? ==> j.value < n
  {
    if n == 0 then None
    else if Changes(At(p, items, n - 1, codec, connector, workspace), items[n - 1], codec, connector)
         && |Strip(TextOf(codec, items[n - 1]))| > 0 then Some(n - 1)
    else LastParsed(p, items, n - 1, codec, connector, workspace)
  }

  /** The content of an item that was written last among the first `n`. */
  function LastWritten(p: Pass, items: seq<Content>, n: nat, e: string, codec: Codec, connector: string, workspace: string): (j: Option<nat>)
    requires n <= |items|
    ensures j.Some? ==> j.value < n && items[j.value].externalId == e
                        && Changes(At(p, items, j.value, codec, connector, workspace), items[j.value], codec, connector)
  {
    if n == 0 then None
    else if items[n - 1].externalId == e && Changes(At(p, items, n - 1, codec, connector, workspace), items[n - 1], codec, connector)
    then Some(n - 1)
    else LastWritten(p, items, n - 1, e, codec, connector, workspace)
  }

  /** The left-over chunks are those of the content that was parsed last: there are some, and the
      source they belong to is owned by that content's item. */
  ghost predicate LeftBy(p: Pass, connector: string, externalId: string) {
    && p.leftOver.Some? && p.leftOver.value != []
    && exists k :: 0 <= k < |p.sources| && Owns(p.sources[k], connector, externalId)
                   && (forall i :: 0 <= i < |p.leftOver.value| ==> p.leftOver.value[i].sourceId == p.sources[k].id)
                   && (FindExisting(p.sources, connector, externalId).Some? ==>
                         FindExisting(p.sources, connector, externalId).value.id == p.sources[k].id)
  }

  /** The item that the left-over chunks belong to is the only stale one. */
  lemma StaleIff(p: Pass, connector: string, owner: string, e: string)
    requires WellFormed(p) && LeftBy(p, connector, owner) && |connector| > 0
    ensures Stale(p, connector, e) <==> e == owner && |e| > 0
  {
    hide Owns;
    var k :| 0 <= k < |p.sources| && Owns(p.sources[k], connector, owner)
             && (forall i :: 0 <= i < |p.leftOver.value| ==> p.leftOver.value[i].sourceId == p.sources[k].id)
             && (FindExisting(p.sources, connector, owner).Some? ==> FindExisting(p.sources, connector, owner).value.id == p.sources[k].id);
    var first := p.leftOver.value[0];
    assert first.sourceId == p.sources[k].id;
    FirstOwnedNone(p.sources, connector, e);
    if Stale(p, connector, e) {
      var m := FirstOwnedIn(p.sources, connector, e);
      assert m == k;
      OwnsOne(p.sources[k], connector, e, connector, owner);
    }
  }

  lemma LeftByNew(p: Pass, item: Content, codec: Codec, connector: string, workspace: string)
    requires WellFormed(p) && Changes(p, item, codec, connector) && |Strip(TextOf(codec, item))| > 0
    ensures LeftBy(PersistOne(p, item, codec, connector, workspace), connector, item.externalId)
  {
    hide WriteChunks, HashOf, TextOf, Strip, ParsedTexts, Put, FirstOwned, Owns;
    var ds := Written(p, item, codec, connector, workspace);
    var q := PersistOne(p, item, codec, connector, workspace);
    VisibleHasChunks(TextOf(codec, item));
    OwnSource(ParsedTexts(TextOf(codec, item)), ds.id, workspace);
    PutMembers(p.sources, ds);
    FindPut(p.sources, ds, connector, item.externalId);
    var k :| 0 <= k < |q.sources| && q.sources[k] == ds;
  }

  lemma LeftByKept(p: Pass, item: Content, codec: Codec, connector: string, workspace: string, owner: string)
    requires WellFormed(p) && LeftBy(p, connector, owner)
    requires !(Changes(p, item, codec, connector) && |Strip(TextOf(codec, item))| > 0)
    ensures LeftBy(PersistOne(p, item, codec, connector, workspace), connector, owner)
  {
    hide WriteChunks, HashOf, TextOf, Strip, ParsedTexts, Put, FindExisting, LeftBy;
    if Changes(p, item, codec, connector) {
      var ds := Written(p, item, codec, connector, workspace);
      OwnerKept(p, PersistOne(p, item, codec, connector, workspace), ds, connector, owner);
    }
  }

  lemma OwnerKept(p: Pass, q: Pass, ds: DataSource, connector: string, owner: string)
    requires UniqueSources(p.sources) && LeftBy(p, connector, owner)
    requires q.leftOver == p.leftOver && q.sources == Put(p.sources, ds)
    requires forall i :: 0 <= i < |p.sources| && p.sources[i].id == ds.id ==> p.sources[i].metadata == ds.metadata
    ensures LeftBy(q, connector, owner)
  {
    hide Put, Owns, FirstOwned;
    var k :| 0 <= k < |p.sources| && Owns(p.sources[k], connector, owner)
             && (forall i :: 0 <= i < |p.leftOver.value| ==> p.leftOver.value[i].sourceId == p.sources[k].id)
             && (FindExisting(p.sources, connector, owner).Some? ==> FindExisting(p.sources, connector, owner).value.id == p.sources[k].id);
    PutAt(p.sources, ds);
    FindPut(p.sources, ds, connector, owner);
    FirstOwnedNone(p.sources, connector, owner);
    OwnsByMetadata(p.sources[k], q.sources[k], connector, owner);
  }

  /** The left-over chunks during a pass: none until something has been parsed, and then those of
      the content that was parsed last. */
  lemma {:induction false} LeftOverIsLastParsed(p: Pass, items: seq<Content>, n: nat, codec: Codec, connector: string, workspace: string)
    requires WellFormed(p) && p.leftOver.None? && n <= |items|
    ensures WellFormed(At(p, items, n, codec, connector, workspace)) && AtHome(At(p, items, n, codec, connector, workspace))
    ensures var j, q := LastParsed(p, items, n, codec, connector, workspace), At(p, items, n, codec, connector, workspace);
            if j.None? then q.leftOver.None? else LeftBy(q, connector, items[j.value].externalId)
  {
    hide PersistOne, WellFormed, AtHome, LeftBy, Changes, TextOf, Strip, At;
    AtInvariant(p, items, n, codec, connector, workspace);
    if n == 0 {
      AtStart(p, items, codec, connector, workspace);
    } else {
      LeftOverIsLastParsed(p, items, n - 1, codec, connector, workspace);
      var q, item := At(p, items, n - 1, codec, connector, workspace), items[n - 1];
      AtNext(p, items, n - 1, codec, connector, workspace);
      var before := LastParsed(p, items, n - 1, codec, connector, workspace);
      if Changes(q, item, codec, connector) && |Strip(TextOf(codec, item))| > 0 {
        LeftByNew(q, item, codec, connector, workspace);
      } else if before.Some? {
        LeftByKept(q, item, codec, connector, workspace, items[before.value].externalId);
      } else {
        NothingLeft(q, item, codec, connector, workspace);
      }
    }
  }

  lemma AtInvariant(p: Pass, items: seq<Content>, n: nat, codec: Codec, connector: string, workspace: string)
    requires WellFormed(p) && p.leftOver.None? && n <= |items|
    ensures WellFormed(At(p, items, n, codec, connector, workspace)) && AtHome(At(p, items, n, codec, connector, workspace))
  {
    hide PersistAll, WellFormed;
    PassInvariant(p, items[..n], codec, connector, workspace);
  }

  lemma AtStart(p: Pass, items: seq<Content>, codec: Codec, connector: string, workspace: string)
    ensures At(p, items, 0, codec, connector, workspace) == p
  {
  }

  lemma NothingLeft(p: Pass, item: Content, codec: Codec, connector: string, workspace: string)
    requires p.leftOver.None? && !(Changes(p, item, codec, connector) && |Strip(TextOf(codec, item))| > 0)
    ensures PersistOne(p, item, codec, connector, workspace).leftOver.None?
  {
    hide HashOf, TextOf, Strip, Put, WriteChunks;
  }

  /** The content parsed last before position `n` is one of item `e`. */
  ghost predicate ParsedJustBefore(p: Pass, items: seq<Content>, n: nat, e: string, codec: Codec, connector: string, workspace: string)
    requires n <= |items|
  {
    var j := LastParsed(p, items, n, codec, connector, workspace);
    j.Some? && items[j.value].externalId == e
  }

  lemma StaleInPass(p: Pass, items: seq<Content>, n: nat, codec: Codec, connector: string, workspace: string, e: string)
    requires WellFormed(p) && p.leftOver.None? && n <= |items| && |connector| > 0 && |e| > 0
    ensures Stale(At(p, items, n, codec, connector, workspace), connector, e)
            <==> ParsedJustBefore(p, items, n, e, codec, connector, workspace)
  {
    hide At, LastParsed, LeftBy;
    LeftOverIsLastParsed(p, items, n, codec, connector, workspace);
    var j := LastParsed(p, items, n, codec, connector, workspace);
    if j.Some? {
      StaleIff(At(p, items, n, codec, connector, workspace), connector, items[j.value].externalId, e);
    }
  }

  /** After the content of an item that is written last, the evidence of the item stays. */
  lemma {:induction false} AfterLastWritten(p: Pass, items: seq<Content>, n: nat, e: string, codec: Codec, connector: string, workspace: string)
    requires WellFormed(p) && p.leftOver.None? && n <= |items| && |connector| > 0 && |e| > 0
    ensures var j := LastWritten(p, items, n, e, codec, connector, workspace);
            EvidenceOf(At(p, items, n, codec, connector, workspace), connector, e)
            == EvidenceOf(At(p, items, if j.Some? then j.value + 1 else 0, codec, connector, workspace), connector, e)
  {
    hide PersistOne, At, HashOf;
    if n > 0 {
      var j := LastWritten(p, items, n, e, codec, connector, workspace);
      if j != Some(n - 1) {
        AfterLastWritten(p, items, n - 1, e, codec, connector, workspace);
        LeftOverIsLastParsed(p, items, n - 1, codec, connector, workspace);
        AtNext(p, items, n - 1, codec, connector, workspace);
        PersistOneEvidence(At(p, items, n - 1, codec, connector, workspace), items[n - 1], codec, connector, workspace, connector, e);
      }
    }
  }

  /** Exactly when a pass leaves an item with the wrong chunks: when the text of the content that is
      written last for it is blank, and the content parsed last before that one, in the same pass,
      is of the same item. The hash is right in either case. */
  lemma PassChunksIff(p: Pass, items: seq<Content>, codec: Codec, connector: string, workspace: string, e: string, k: nat)
    requires WellFormed(p) && p.leftOver.None? && |connector| > 0 && |e| > 0
    requires LastWritten(p, items, |items|, e, codec, connector, workspace) == Some(k)
    ensures k < |items| && items[k].externalId == e
    ensures var ev, text := EvidenceOf(PersistAll(p, items, codec, connector, workspace), connector, e), TextOf(codec, items[k]);
            && ev.Some? && ev.value.source.hash == HashOf(codec, items[k]) && ev.value.source.status == Parsed
            && (ev.value.chunks == ChunkMap(ChunksOf(text, ev.value.source.id, workspace)) <==>
                !(|Strip(text)| == 0 && ParsedJustBefore(p, items, k, e, codec, connector, workspace)))
  {
    hide PersistOne, PersistAll, HashOf, TextOf, Strip, LastParsed, ParsedJustBefore, LastWritten, FindExisting, ChunksOf, LeftOverOf;
    assert items[..|items|] == items;
    AfterLastWritten(p, items, |items|, e, codec, connector, workspace);
    var q := At(p, items, k, codec, connector, workspace);
    LeftOverIsLastParsed(p, items, k, codec, connector, workspace);
    AtNext(p, items, k, codec, connector, workspace);
    StaleInPass(p, items, k, codec, connector, workspace, e);
    PersistOneEvidence(q, items[k], codec, connector, workspace, connector, e);
    ChunksRightIff(q, items[k], codec, connector, workspace);
    BelowNext(q, items[k], connector);
    NotLeftOver(q);
  }

  /** Contents for which that cannot happen, as a caller can see beforehand: no item comes twice, or
      no text is blank. */
  ghost predicate Harmless(items: seq<Content>, codec: Codec) {
    || (forall i, j :: 0 <= i < j < |items| && |items[i].externalId| > 0 ==> items[i].externalId != items[j].externalId)
    || (forall i :: 0 <= i < |items| && !IsEmpty(items[i]) ==> |Strip(TextOf(codec, items[i]))| > 0)
  }

  /** The evidence of an item when its contents are taken one after the other. */
  ghost function FoldEvidence(before: Option<Evidence>, items: seq<Content>, e: string, drawn: SourceId, codec: Codec,
                              connector: string, workspace: string): Option<Evidence> {
    if items == [] then before
    else
      var rest := FoldEvidence(before, items[..|items| - 1], e, drawn, codec, connector, workspace);
      if items[|items| - 1].externalId == e
      then NextEvidence(rest, items[|items| - 1], drawn, false, codec, connector, workspace) else rest
  }

  lemma {:induction false} FoldNone(before: Option<Evidence>, items: seq<Content>, e: string, drawn: SourceId, drawn': SourceId,
                                    codec: Codec, connector: string, workspace: string)
    requires FoldEvidence(before, items, e, drawn, codec, connector, workspace).None?
    ensures FoldEvidence(before, items, e, drawn', codec, connector, workspace).None?
  {
    hide HashOf, TextOf, ChunksOf, IsEmpty, Strip;
    if items != [] {
      FoldNone(before, items[..|items| - 1], e, drawn, drawn', codec, connector, workspace);
    }
  }

  /** A pass as the item-by-item fold: over contents that are harmless, it gives the evidence of each
      item of the connector what its contents make of it one after the other, and leaves the
      evidence of everything else alone. */
  lemma PassEvidence(p: Pass, items: seq<Content>, codec: Codec, connector: string, workspace: string, c: string, e: string)
    returns (drawn: SourceId)
    requires WellFormed(p) && p.leftOver.None? && Harmless(items, codec)
    ensures EvidenceOf(PersistAll(p, items, codec, connector, workspace), c, e) ==
            if c == connector && |c| > 0 && |e| > 0
            then FoldEvidence(EvidenceOf(p, c, e), items, e, drawn, codec, connector, workspace)
            else EvidenceOf(p, c, e)
  {
    hide PersistAll, FoldEvidence, WellFormed, EvidenceOf, Harmless;
    drawn := FoldAt(p, items, |items|, codec, connector, workspace, c, e);
    assert items[..|items|] == items;
  }

  lemma {:induction false} FoldAt(p: Pass, items: seq<Content>, n: nat, codec: Codec, connector: string, workspace: string, c: string, e: string)
    returns (drawn: SourceId)
    requires WellFormed(p) && p.leftOver.None? && Harmless(items, codec) && n <= |items|
    ensures EvidenceOf(At(p, items, n, codec, connector, workspace), c, e) ==
            if c == connector && |c| > 0 && |e| > 0
            then FoldEvidence(EvidenceOf(p, c, e), items[..n], e, drawn, codec, connector, workspace)
            else EvidenceOf(p, c, e)
  {
    hide PersistOne, EvidenceOf, WellFormed, Harmless, Changes, AtHome, NextEvidence, Stale;
    drawn := 0;
    if n > 0 {
      drawn := FoldAt(p, items, n - 1, codec, connector, workspace, c, e);
      var q, item := At(p, items, n - 1, codec, connector, workspace), items[n - 1];
      LeftOverIsLastParsed(p, items, n - 1, codec, connector, workspace);
      AtNext(p, items, n - 1, codec, connector, workspace);
      PersistOneEvidence(q, item, codec, connector, workspace, c, e);
      assert items[..n][..n - 1] == items[..n - 1];
      if c == connector && |c| > 0 && |e| > 0 && e == item.externalId {
        NotStale(p, items, n - 1, codec, connector, workspace);
        var before := EvidenceOf(q, c, e);
        if before.None? {
          FoldNone(EvidenceOf(p, c, e), items[..n - 1], e, drawn, q.next, codec, connector, workspace);
          drawn := q.next;
        }
        SameNext(before, item, q.next, drawn, Stale(q, c, e), codec, connector, workspace);
      }
    }
  }

  /** A harmless content does not find its own chunks left over when its text is blank. */
  lemma NotStale(p: Pass, items: seq<Content>, n: nat, codec: Codec, connector: string, workspace: string)
    requires WellFormed(p) && p.leftOver.None? && Harmless(items, codec) && n < |items| && |connector| > 0 && |items[n].externalId| > 0
    ensures var q := At(p, items, n, codec, connector, workspace);
            IsEmpty(items[n]) || !Stale(q, connector, items[n].externalId) || |Strip(TextOf(codec, items[n]))| > 0
  {
    hide At, Strip, TextOf, LastParsed, WellFormed, IsEmpty;
    StaleInPass(p, items, n, codec, connector, workspace, items[n].externalId);
    var j := LastParsed(p, items, n, codec, connector, workspace);
  }

  lemma SameNext(before: Option<Evidence>, item: Content, next: SourceId, drawn: SourceId, stale: bool, codec: Codec, connector: string, workspace: string)
    requires before.None? ==> drawn == next
    requires IsEmpty(item) || !stale || |Strip(TextOf(codec, item))| > 0
    ensures NextEvidence(before, item, next, stale, codec, connector, workspace)
         == NextEvidence(before, item, drawn, false, codec, connector, workspace)
  {
    hide TextOf, HashOf, Strip, ChunksOf;
  }

  // ------------------------------------------------------------------
  // Any number of calls

  datatype BridgeCall = BridgeCall(connector: string, items: seq<Content>)

  /** The store after some calls; every call starts without left-over chunks. */
  ghost function AfterCalls(p: Pass, calls: seq<BridgeCall>, codec: Codec, workspace: string): Pass {
    if calls == [] then p
    else
      var call := calls[|calls| - 1];
      var q := PersistAll(AfterCalls(p, calls[..|calls| - 1], codec, workspace), call.items, codec, call.connector, workspace);
      Pass(q.sources, q.dirs, q.next, None)
  }

  /** Calls of the bridge on one store, one after the other, do just that. */
  method PersistCalls(store: DataSourceStore, calls: seq<BridgeCall>, codec: Codec)
    requires store.Valid()
    modifies store
    ensures store.Valid()
    ensures Pass(store.Sources(), store.dirs, store.nextSource, None)
         == AfterCalls(Pass(old(store.Sources()), old(store.dirs), old(store.nextSource), None), calls, codec, store.workspaceId)
  {
    hide PersistAll, Listing;
    ghost var start := Pass(store.Sources(), store.dirs, store.nextSource, None);
    for n := 0 to |calls|
      invariant store.Valid()
      invariant Pass(store.Sources(), store.dirs, store.nextSource, None) == AfterCalls(start, calls[..n], codec, store.workspaceId)
    {
      assert calls[..n + 1][..n] == calls[..n];
      var saved := PersistConnectorContent(store, calls[n].items, codec, calls[n].connector);
    }
    assert calls[..|calls|] == calls;
  }

  /** Whatever the calls are, no item ever gets a second source. */
  lemma {:induction false} CallsAtMostOne(p: Pass, calls: seq<BridgeCall>, codec: Codec, workspace: string)
    requires WellFormed(p) && p.leftOver.None? && AtMostOne(p.sources)
    ensures var q := AfterCalls(p, calls, codec, workspace);
            WellFormed(q) && q.leftOver.None? && AtMostOne(q.sources)
  {
    hide PersistAll, AtMostOne;
    if calls != [] {
      var call := calls[|calls| - 1];
      CallsAtMostOne(p, calls[..|calls| - 1], codec, workspace);
      PassInvariant(AfterCalls(p, calls[..|calls| - 1], codec, workspace), call.items, codec, call.connector, workspace);
    }
  }

  /** The contents that a pass has for an item. */
  ghost function ContentsOf(items: seq<Content>, e: string): seq<Content> {
    if items == [] then []
    else ContentsOf(items[..|items| - 1], e) + if items[|items| - 1].externalId == e then [items[|items| - 1]] else []
  }

  /** All contents that the calls have for an item of a connector, in order. */
  ghost function History(calls: seq<BridgeCall>, c: string, e: string): seq<Content> {
    if calls == [] then []
    else History(calls[..|calls| - 1], c, e)
         + if calls[|calls| - 1].connector == c then ContentsOf(calls[|calls| - 1].items, e) else []
  }

  /** The content behind the evidence: the first of those that have come since with the same hash. */
  ghost function Behind(contents: seq<Content>, codec: Codec): Option<Content> {
    if contents == [] then None
    else
      var before, c := Behind(contents[..|contents| - 1], codec), contents[|contents| - 1];
      if IsEmpty(c) || (before.Some? && HashOf(codec, before.value) == HashOf(codec, c)) then before else Some(c)
  }

  /** The last content that is not empty. */
  ghost function Latest(contents: seq<Content>): Option<Content> {
    if contents == [] then None
    else if IsEmpty(contents[|contents| - 1]) then Latest(contents[..|contents| - 1])
    else Some(contents[|contents| - 1])
  }

  /** The content behind the evidence has the hash of the latest one. */
  lemma {:induction false} BehindIsLatest(contents: seq<Content>, codec: Codec)
    ensures var b, l := Behind(contents, codec), Latest(contents);
            (b.Some? <==> l.Some?) && (b.Some? ==> HashOf(codec, b.value) == HashOf(codec, l.value) && b.value in contents && l.value in contents)
  {
    hide HashOf, IsEmpty;
    if contents != [] {
      BehindIsLatest(contents[..|contents| - 1], codec);
    }
  }

  ghost predicate Shows(ev: Option<Evidence>, b: Option<Content>, codec: Codec, workspace: string) {
    && (ev.Some? <==> b.Some?)
    && (ev.Some? ==>
          && ev.value.source.hash == HashOf(codec, b.value)
          && ev.value.chunks == ChunkMap(ChunksOf(TextOf(codec, b.value), ev.value.source.id, workspace)))
  }

  lemma {:induction false} FoldShows(ev: Option<Evidence>, past: seq<Content>, items: seq<Content>, e: string, drawn: SourceId, codec: Codec,
                                     connector: string, workspace: string)
    requires Shows(ev, Behind(past, codec), codec, workspace)
    ensures Shows(FoldEvidence(ev, items, e, drawn, codec, connector, workspace), Behind(past + ContentsOf(items, e), codec), codec, workspace)
  {
    hide NextEvidence, Shows, Behind;
    if items == [] {
      assert past + [] == past;
    } else {
      var rest, item := items[..|items| - 1], items[|items| - 1];
      FoldShows(ev, past, rest, e, drawn, codec, connector, workspace);
      var known := past + ContentsOf(rest, e);
      if item.externalId == e {
        assert past + ContentsOf(items, e) == known + [item];
        OneShown(FoldEvidence(ev, rest, e, drawn, codec, connector, workspace), known, item, drawn, codec, connector, workspace);
      } else {
        assert ContentsOf(items, e) == ContentsOf(rest, e) + [] == ContentsOf(rest, e);
      }
    }
  }

  lemma OneShown(ev: Option<Evidence>, known: seq<Content>, item: Content, drawn: SourceId, codec: Codec, connector: string, workspace: string)
    requires Shows(ev, Behind(known, codec), codec, workspace)
    ensures Shows(NextEvidence(ev, item, drawn, false, codec, connector, workspace), Behind(known + [item], codec), codec, workspace)
  {
    hide HashOf, TextOf, ChunksOf, ChunkMap, IsEmpty, Strip;
    assert (known + [item])[..|known|] == known;
  }

  lemma {:induction false} CallsShow(p: Pass, calls: seq<BridgeCall>, codec: Codec, workspace: string, c: string, e: string)
    requires WellFormed(p) && p.leftOver.None? && |c| > 0 && |e| > 0 && EvidenceOf(p, c, e).None?
    requires forall i :: 0 <= i < |calls| ==> Harmless(calls[i].items, codec)
    ensures var q := AfterCalls(p, calls, codec, workspace);
            WellFormed(q) && q.leftOver.None? && Shows(EvidenceOf(q, c, e), Behind(History(calls, c, e), codec), codec, workspace)
  {
    hide PersistAll, Shows, Behind, FoldEvidence, Harmless, AtHome, History, WellFormed, EvidenceOf;
    if calls == [] {
      NothingShown(codec, workspace, c, e);
    } else {
      CallsShow(p, calls[..|calls| - 1], codec, workspace, c, e);
      OneMoreCall(AfterCalls(p, calls[..|calls| - 1], codec, workspace), calls, codec, workspace, c, e);
    }
  }

  lemma OneMoreCall(p: Pass, calls: seq<BridgeCall>, codec: Codec, workspace: string, c: string, e: string)
    requires WellFormed(p) && p.leftOver.None? && |c| > 0 && |e| > 0 && calls != []
    requires Harmless(calls[|calls| - 1].items, codec)
    requires Shows(EvidenceOf(p, c, e), Behind(History(calls[..|calls| - 1], c, e), codec), codec, workspace)
    ensures var call := calls[|calls| - 1];
            var q := PersistAll(p, call.items, codec, call.connector, workspace);
            WellFormed(Pass(q.sources, q.dirs, q.next, None))
            && Shows(EvidenceOf(Pass(q.sources, q.dirs, q.next, None), c, e), Behind(History(calls, c, e), codec), codec, workspace)
  {
    hide PersistAll, Shows, Behind, FoldEvidence, Harmless, AtHome, EvidenceOf, WellFormed, ContentsOf, AtMostOne, History;
    var rest, call := calls[..|calls| - 1], calls[|calls| - 1];
    NoneAtHome(p);
    PassInvariant(p, call.items, codec, call.connector, workspace);
    var drawn := PassEvidence(p, call.items, codec, call.connector, workspace, c, e);
    Emptied(PersistAll(p, call.items, codec, call.connector, workspace), c, e);
    HistoryNext(calls, c, e);
    if call.connector == c {
      FoldShows(EvidenceOf(p, c, e), History(rest, c, e), call.items, e, drawn, codec, c, workspace);
    }
  }

  lemma HistoryNext(calls: seq<BridgeCall>, c: string, e: string)
    requires calls != []
    ensures var call := calls[|calls| - 1];
            History(calls, c, e) == if call.connector == c then History(calls[..|calls| - 1], c, e) + ContentsOf(call.items, e)
                                    else History(calls[..|calls| - 1], c, e)
  {
    assert History(calls[..|calls| - 1], c, e) + [] == History(calls[..|calls| - 1], c, e);
  }

  lemma Emptied(q: Pass, c: string, e: string)
    requires WellFormed(q)
    ensures WellFormed(Pass(q.sources, q.dirs, q.next, None))
    ensures EvidenceOf(Pass(q.sources, q.dirs, q.next, None), c, e) == EvidenceOf(q, c, e)
  {
  }

  lemma NothingShown(codec: Codec, workspace: string, c: string, e: string)
    ensures Shows(None, Behind(History([], c, e), codec), codec, workspace)
  {
  }

  lemma NoneAtHome(p: Pass)
    requires p.leftOver.None?
    ensures AtHome(p)
  {
  }

  /** Over any number of calls with harmless contents, starting without evidence of an item: the item
      has a source exactly when some content of it was not empty; the hash is that of the latest
      such content; and the stored chunks are exactly those of its text, if contents of the item
      that have the same hash have the same text. */
  lemma CallsEvidence(p: Pass, calls: seq<BridgeCall>, codec: Codec, workspace: string, c: string, e: string)
    requires WellFormed(p) && p.leftOver.None? && |c| > 0 && |e| > 0 && EvidenceOf(p, c, e).None?
    requires forall i :: 0 <= i < |calls| ==> Harmless(calls[i].items, codec)
    ensures var ev, latest := EvidenceOf(AfterCalls(p, calls, codec, workspace), c, e), Latest(History(calls, c, e));
            && (ev.Some? <==> latest.Some?)
            && (ev.Some? ==> ev.value.source.hash == HashOf(codec, latest.value))
            && (ev.Some? && SameText(History(calls, c, e), codec) ==>
                  ev.value.chunks == ChunkMap(ChunksOf(TextOf(codec, latest.value), ev.value.source.id, workspace)))
  {
    hide AfterCalls, HashOf, TextOf, ChunkMap, ChunksOf, Behind, Latest, History, WellFormed, EvidenceOf, Harmless;
    CallsShow(p, calls, codec, workspace, c, e);
    BehindIsLatest(History(calls, c, e), codec);
  }

  /** Contents with the same hash have the same text. */
  ghost predicate SameText(contents: seq<Content>, codec: Codec) {
    forall a, b :: a in contents && b in contents && HashOf(codec, a) == HashOf(codec, b) ==> TextOf(codec, a) == TextOf(codec, b)
  }

  // ------------------------------------------------------------------
  // Repeating a call

  /** The same sources, the same next id, and the same chunks of every source; a chunk directory that is
      empty is as good as none. */
  ghost predicate SameStore(p: Pass, q: Pass) {
    p.sources == q.sources && p.next == q.next && forall id :: DirOf(p.dirs, id) == DirOf(q.dirs, id)
  }

  /** Two states of the evidence of one item: the same source, but for hash and status. */
  ghost predicate SameItem(a: Option<Evidence>, b: Option<Evidence>) {
    && a.Some? && b.Some?
    && a.value.source.id == b.value.source.id && a.value.source.name == b.value.source.name
    && a.value.source.metadata == b.value.source.metadata
  }

  ghost predicate NoContentFor(items: seq<Content>, e: string) {
    forall i :: 0 <= i < |items| && items[i].externalId == e ==> IsEmpty(items[i])
  }

  ghost predicate OneHash(items: seq<Content>, e: string, hash: Hash, codec: Codec) {
    forall i :: 0 <= i < |items| && items[i].externalId == e ==> IsEmpty(items[i]) || HashOf(codec, items[i]) == hash
  }

  lemma {:induction false} FoldKeepsItem(before: Option<Evidence>, items: seq<Content>, n: nat, e: string, drawn: SourceId, codec: Codec,
                                         connector: string, workspace: string)
    requires n <= |items| && FoldEvidence(before, items[..n], e, drawn, codec, connector, workspace).Some?
    ensures SameItem(FoldEvidence(before, items[..n], e, drawn, codec, connector, workspace),
                     FoldEvidence(before, items, e, drawn, codec, connector, workspace))
    decreases |items| - n
  {
    hide HashOf, TextOf, ChunksOf, ChunkMap, IsEmpty, Strip;
    if n == |items| {
      assert items[..n] == items;
    } else {
      assert items[..n + 1][..n] == items[..n];
      FoldKeepsItem(before, items, n + 1, e, drawn, codec, connector, workspace);
    }
  }

  /** The same contents folded into the evidence from before and into the evidence they make of it: from
      the first content that is not empty on, both have the same hash; and they are equal unless all
      contents so far have one hash. */
  lemma {:induction false} FoldBoth(before: Option<Evidence>, items: seq<Content>, n: nat, e: string, drawn: SourceId, drawn': SourceId,
                                    codec: Codec, connector: string, workspace: string)
    requires n <= |items| && FoldEvidence(before, items, e, drawn, codec, connector, workspace).Some?
    ensures var once := FoldEvidence(before, items, e, drawn, codec, connector, workspace);
            var x, y := FoldEvidence(before, items[..n], e, drawn, codec, connector, workspace),
                        FoldEvidence(once, items[..n], e, drawn', codec, connector, workspace);
            && SameItem(y, once)
            && (NoContentFor(items[..n], e) ==> y == once && x == before)
            && (!NoContentFor(items[..n], e) ==>
                  x.Some? && x.value.source.hash == y.value.source.hash && (x == y || OneHash(items[..n], e, x.value.source.hash, codec)))
  {
    hide NextEvidence, HashOf, IsEmpty;
    if n > 0 {
      FoldBoth(before, items, n - 1, e, drawn, drawn', codec, connector, workspace);
      var once := FoldEvidence(before, items, e, drawn, codec, connector, workspace);
      var x, y := FoldEvidence(before, items[..n - 1], e, drawn, codec, connector, workspace),
                  FoldEvidence(once, items[..n - 1], e, drawn', codec, connector, workspace);
      var c := items[n - 1];
      assert items[..n] == items[..n - 1] + [c] && items[..n][..n - 1] == items[..n - 1];
      if c.externalId == e {
        if x.Some? {
          FoldKeepsItem(before, items, n - 1, e, drawn, codec, connector, workspace);
        }
        if !IsEmpty(c) {
          var x' := NextEvidence(x, c, drawn, false, codec, connector, workspace);
          WrittenSome(x, c, drawn, codec, connector, workspace);
          assert FoldEvidence(before, items[..n], e, drawn, codec, connector, workspace) == x';
          FoldKeepsItem(before, items, n, e, drawn, codec, connector, workspace);
          BothNext(x, y, once, c, drawn, drawn', codec, connector, workspace);
          assert items[..n][n - 1] == c;
        } else {
          EmptyNext(x, c, drawn, codec, connector, workspace);
          EmptyNext(y, c, drawn', codec, connector, workspace);
        }
      }
      HashesSoFar(items, n, e, codec, HashOf(codec, c));
      if x.Some? {
        HashesSoFar(items, n, e, codec, x.value.source.hash);
      }
    }
  }

  lemma WrittenSome(x: Option<Evidence>, c: Content, drawn: SourceId, codec: Codec, connector: string, workspace: string)
    requires !IsEmpty(c)
    ensures NextEvidence(x, c, drawn, false, codec, connector, workspace).Some?
  {
    hide HashOf, TextOf, ChunksOf, ChunkMap, Strip;
  }

  lemma EmptyNext(x: Option<Evidence>, c: Content, drawn: SourceId, codec: Codec, connector: string, workspace: string)
    requires IsEmpty(c)
    ensures NextEvidence(x, c, drawn, false, codec, connector, workspace) == x
  {
    hide HashOf, TextOf, ChunksOf, ChunkMap, Strip;
  }

  lemma BothNext(x: Option<Evidence>, y: Option<Evidence>, once: Option<Evidence>, c: Content, drawn: SourceId, drawn': SourceId,
                 codec: Codec, connector: string, workspace: string)
    requires !IsEmpty(c) && SameItem(y, once) && SameItem(NextEvidence(x, c, drawn, false, codec, connector, workspace), once)
    requires x.Some? ==> SameItem(x, once)
    ensures var x', y' := NextEvidence(x, c, drawn, false, codec, connector, workspace), NextEvidence(y, c, drawn', false, codec, connector, workspace);
            && SameItem(y', once) && x'.Some? && y'.Some? && x'.value.source.hash == y'.value.source.hash == HashOf(codec, c)
            && (x == y ==> x' == y')
            && (x.Some? && x.value.source.hash == y.value.source.hash && x.value.source.hash != HashOf(codec, c) ==> x' == y')
  {
    hide HashOf, TextOf, ChunksOf, ChunkMap, Strip;
  }

  lemma HashesSoFar(items: seq<Content>, n: nat, e: string, codec: Codec, hash: Hash)
    requires 0 < n <= |items|
    ensures var c := items[n - 1];
            && (NoContentFor(items[..n], e) <==> NoContentFor(items[..n - 1], e) && (c.externalId == e ==> IsEmpty(c)))
            && (OneHash(items[..n], e, hash, codec) <==>
                OneHash(items[..n - 1], e, hash, codec) && (c.externalId == e ==> IsEmpty(c) || HashOf(codec, c) == hash))
            && (NoContentFor(items[..n - 1], e) ==> OneHash(items[..n - 1], e, hash, codec))
  {
    hide HashOf, IsEmpty;
    var a, b := items[..n], items[..n - 1];
    assert a == b + [items[n - 1]];
    assert forall i :: 0 <= i < n - 1 ==> a[i] == b[i];
  }

  /** Contents that one call has made into evidence leave it alone when they come again. */
  lemma FoldTwice(before: Option<Evidence>, items: seq<Content>, e: string, drawn: SourceId, drawn': SourceId, codec: Codec,
                  connector: string, workspace: string)
    ensures var once := FoldEvidence(before, items, e, drawn, codec, connector, workspace);
            FoldEvidence(once, items, e, drawn', codec, connector, workspace) == once
  {
    hide FoldEvidence, HashOf, IsEmpty;
    var once := FoldEvidence(before, items, e, drawn, codec, connector, workspace);
    assert items[..|items|] == items;
    if once.Some? {
      FoldBoth(before, items, |items|, e, drawn, drawn', codec, connector, workspace);
      if !NoContentFor(items, e) && OneHash(items, e, once.value.source.hash, codec) {
        FoldOneHash(once, items, e, drawn', codec, connector, workspace);
      }
    } else {
      FoldNoneEmpty(before, items, e, drawn, codec, connector, workspace);
      FoldNone(before, items, e, drawn, drawn', codec, connector, workspace);
    }
  }

  lemma {:induction false} FoldOneHash(ev: Option<Evidence>, items: seq<Content>, e: string, drawn: SourceId, codec: Codec,
                                       connector: string, workspace: string)
    requires ev.Some? && OneHash(items, e, ev.value.source.hash, codec)
    ensures FoldEvidence(ev, items, e, drawn, codec, connector, workspace) == ev
  {
    hide HashOf, TextOf, ChunksOf, ChunkMap, IsEmpty, Strip;
    if items != [] {
      FoldOneHash(ev, items[..|items| - 1], e, drawn, codec, connector, workspace);
    }
  }

  /** Where there is no evidence after some contents there was none before. */
  lemma {:induction false} FoldNoneEmpty(before: Option<Evidence>, items: seq<Content>, e: string, drawn: SourceId, codec: Codec,
                                         connector: string, workspace: string)
    requires FoldEvidence(before, items, e, drawn, codec, connector, workspace).None?
    ensures before.None?
  {
    hide HashOf, TextOf, ChunksOf, ChunkMap, IsEmpty, Strip;
    if items != [] {
      FoldNoneEmpty(before, items[..|items| - 1], e, drawn, codec, connector, workspace);
    }
  }

  /** One of the first `n` contents may have written the source with this id. */
  ghost predicate Touched(p: Pass, items: seq<Content>, n: nat, connector: string, id: SourceId) {
    exists m :: 0 <= m < n && m < |items| && FindExisting(p.sources, connector, items[m].externalId).Some?
                && FindExisting(p.sources, connector, items[m].externalId).value.id == id
  }

  /** All items have a source already, but for those that come without content. */
  ghost predicate AllThere(p: Pass, items: seq<Content>, connector: string) {
    forall m :: 0 <= m < |items| && !IsEmpty(items[m]) ==> FindExisting(p.sources, connector, items[m].externalId).Some?
  }

  /** A list of sources under the same ids, each of the same item. */
  ghost predicate SameItems(l: seq<DataSource>, r: seq<DataSource>) {
    |r| == |l| && forall k :: 0 <= k < |l| ==> r[k].id == l[k].id && r[k].metadata == l[k].metadata
  }

  lemma {:induction false} SameOwner(l: seq<DataSource>, r: seq<DataSource>, connector: string, e: string)
    requires SameItems(l, r)
    ensures FirstOwned(l, connector, e).Some? <==> FirstOwned(r, connector, e).Some?
    ensures FirstOwned(l, connector, e).Some? ==> FirstOwned(l, connector, e).value.id == FirstOwned(r, connector, e).value.id
  {
    if |l| > 0 {
      SameOwner(l[1..], r[1..], connector, e);
    }
  }

  /** When all items are there, a pass touches nothing but their sources. */
  lemma {:induction false} OnlyTouched(p: Pass, items: seq<Content>, n: nat, codec: Codec, connector: string, workspace: string)
    requires WellFormed(p) && p.leftOver.None? && AllThere(p, items, connector) && n <= |items|
    ensures var q := At(p, items, n, codec, connector, workspace);
            && q.next == p.next && SameItems(p.sources, q.sources)
            && (forall k :: 0 <= k < |p.sources| && !Touched(p, items, n, connector, p.sources[k].id) ==> q.sources[k] == p.sources[k])
            && (forall x :: !Touched(p, items, n, connector, x) ==> DirOf(q.dirs, x) == DirOf(p.dirs, x))
  {
    hide PersistOne, FindExisting, WellFormed, HashOf, IsEmpty, AtHome, Touched, SameItems;
    if n == 0 {
      AtStart(p, items, codec, connector, workspace);
      SameAsItself(p.sources);
    } else {
      OnlyTouched(p, items, n - 1, codec, connector, workspace);
      var q, item := At(p, items, n - 1, codec, connector, workspace), items[n - 1];
      LeftOverIsLastParsed(p, items, n - 1, codec, connector, workspace);
      AtNext(p, items, n - 1, codec, connector, workspace);
      TouchedNext(p, items, n, connector);
      if Changes(q, item, codec, connector) {
        OneTouched(p, q, items, n, codec, connector, workspace);
      } else {
        NothingWritten(q, item, codec, connector, workspace);
      }
    }
  }

  lemma SameAsItself(l: seq<DataSource>)
    ensures SameItems(l, l)
  {
  }

  lemma NothingWritten(p: Pass, item: Content, codec: Codec, connector: string, workspace: string)
    requires !Changes(p, item, codec, connector)
    ensures PersistOne(p, item, codec, connector, workspace) == p
  {
    hide HashOf, TextOf, WriteChunks, ToSave, FindExisting, Put;
  }

  lemma TouchedNext(p: Pass, items: seq<Content>, n: nat, connector: string)
    requires 0 < n <= |items|
    ensures forall id :: Touched(p, items, n - 1, connector, id) ==> Touched(p, items, n, connector, id)
    ensures FindExisting(p.sources, connector, items[n - 1].externalId).Some? ==>
              Touched(p, items, n, connector, FindExisting(p.sources, connector, items[n - 1].externalId).value.id)
  {
    hide FindExisting;
  }

  lemma OneTouched(p: Pass, q: Pass, items: seq<Content>, n: nat, codec: Codec, connector: string, workspace: string)
    requires 0 < n <= |items| && WellFormed(q) && AtHome(q) && AllThere(p, items, connector) && SameItems(p.sources, q.sources)
    requires Changes(q, items[n - 1], codec, connector)
    ensures var id, r := IdFor(q, items[n - 1], connector), PersistOne(q, items[n - 1], codec, connector, workspace);
            && Touched(p, items, n, connector, id) && r.next == q.next && SameItems(p.sources, r.sources)
            && |p.sources| == |q.sources| == |r.sources|
            && (forall k :: 0 <= k < |p.sources| && p.sources[k].id != id ==> r.sources[k] == q.sources[k])
            && (forall x :: x != id ==> DirOf(r.dirs, x) == DirOf(q.dirs, x))
  {
    hide HashOf, TextOf, WriteChunks, ToSave, FirstOwned, Put, AtHome, Touched, SameItems, UniqueSources, Owns, NextChunks, DirOf;
    var item := items[n - 1];
    SameOwner(p.sources, q.sources, connector, item.externalId);
    TouchedNext(p, items, n, connector);
    var ds := Written(q, item, codec, connector, workspace);
    PersistOneDirs(q, item, codec, connector, workspace);
    var i := FirstOwnedIn(q.sources, connector, item.externalId);
    PutSame(q.sources, ds, i);
    SameAgain(p.sources, q.sources, Put(q.sources, ds));
  }

  /** Writing over a source keeps all items and all other sources. */
  lemma PutSame(l: seq<DataSource>, ds: DataSource, i: nat)
    requires UniqueSources(l) && i < |l| && l[i].id == ds.id && l[i].metadata == ds.metadata
    ensures SameItems(l, Put(l, ds)) && |Put(l, ds)| == |l|
    ensures forall k :: 0 <= k < |l| && l[k].id != ds.id ==> Put(l, ds)[k] == l[k]
  {
    hide Put;
    PutAt(l, ds);
  }

  lemma SameAgain(l: seq<DataSource>, m: seq<DataSource>, r: seq<DataSource>)
    requires SameItems(l, m) && SameItems(m, r)
    ensures SameItems(l, r) && |l| == |m| == |r|
    ensures forall k :: 0 <= k < |l| ==> l[k].id == m[k].id == r[k].id
  {
  }

  /** Repeating a call with the same contents, if they are harmless and have ids, leaves the store as it
      is. */
  lemma RepeatingChangesNothing(p: Pass, items: seq<Content>, codec: Codec, connector: string, workspace: string)
    requires WellFormed(p) && p.leftOver.None? && |connector| > 0 && Harmless(items, codec)
    requires forall i :: 0 <= i < |items| ==> |items[i].externalId| > 0
    ensures var q := PersistAll(p, items, codec, connector, workspace);
            SameStore(Pass(q.sources, q.dirs, q.next, None),
                      PersistAll(Pass(q.sources, q.dirs, q.next, None), items, codec, connector, workspace))
  {
    hide PersistAll, HashOf, FoldEvidence, WellFormed, FindExisting, IsEmpty, AtHome, Harmless, Touched, SameItems, EvidenceOf, SameStore;
    var q := PersistAll(p, items, codec, connector, workspace);
    var again := Pass(q.sources, q.dirs, q.next, None);
    NoneAtHome(p);
    PassInvariant(p, items, codec, connector, workspace);
    Emptied(q, "", "");
    var r := PersistAll(again, items, codec, connector, workspace);
    forall e ensures EvidenceOf(r, connector, e) == EvidenceOf(again, connector, e) {
      Twice(p, items, codec, connector, workspace, e);
    }
    forall m | 0 <= m < |items| && !IsEmpty(items[m]) ensures FindExisting(again.sources, connector, items[m].externalId).Some? {
      ThereAfterwards(p, items, codec, connector, workspace, m);
    }
    SameAfter(again, items, codec, connector, workspace);
  }

  lemma SameAfter(p: Pass, items: seq<Content>, codec: Codec, connector: string, workspace: string)
    requires WellFormed(p) && p.leftOver.None? && AllThere(p, items, connector)
    requires forall e :: EvidenceOf(PersistAll(p, items, codec, connector, workspace), connector, e) == EvidenceOf(p, connector, e)
    ensures SameStore(p, PersistAll(p, items, codec, connector, workspace))
  {
    hide PersistAll, FindExisting, AtHome, Touched, SameItems, EvidenceOf, AllThere, WellFormed, UniqueSources, DirOf, AtMostOne;
    var r := PersistAll(p, items, codec, connector, workspace);
    NoneAtHome(p);
    PassInvariant(p, items, codec, connector, workspace);
    UniqueIn(p);
    UniqueIn(r);
    assert items[..|items|] == items;
    OnlyTouched(p, items, |items|, codec, connector, workspace);
    SourcesKept(p, r, items, connector);
    forall x ensures DirOf(r.dirs, x) == DirOf(p.dirs, x) {
      DirKept(p, r, items, connector, x);
    }
  }

  lemma UniqueIn(p: Pass)
    requires WellFormed(p)
    ensures UniqueSources(p.sources)
  {
  }

  lemma SourcesKept(p: Pass, r: Pass, items: seq<Content>, connector: string)
    requires UniqueSources(p.sources) && UniqueSources(r.sources) && SameItems(p.sources, r.sources)
    requires forall e :: EvidenceOf(r, connector, e) == EvidenceOf(p, connector, e)
    requires forall k :: 0 <= k < |p.sources| && !Touched(p, items, |items|, connector, p.sources[k].id) ==> r.sources[k] == p.sources[k]
    ensures r.sources == p.sources
  {
    hide Touched, EvidenceOf, UniqueSources;
    forall k | 0 <= k < |p.sources| ensures r.sources[k] == p.sources[k] {
      SourceKept(p, r, items, connector, k);
    }
  }

  lemma SourceKept(p: Pass, r: Pass, items: seq<Content>, connector: string, k: nat)
    requires UniqueSources(p.sources) && UniqueSources(r.sources) && SameItems(p.sources, r.sources) && k < |p.sources|
    requires forall e :: EvidenceOf(r, connector, e) == EvidenceOf(p, connector, e)
    requires !Touched(p, items, |items|, connector, p.sources[k].id) ==> r.sources[k] == p.sources[k]
    ensures r.sources[k] == p.sources[k]
  {
    hide FirstOwned;
    if Touched(p, items, |items|, connector, p.sources[k].id) {
      var m :| 0 <= m < |items| && FindExisting(p.sources, connector, items[m].externalId).Some?
               && FindExisting(p.sources, connector, items[m].externalId).value.id == p.sources[k].id;
      var e := items[m].externalId;
      assert EvidenceOf(r, connector, e) == EvidenceOf(p, connector, e);
      var a := FirstOwnedIn(p.sources, connector, e);
      var b := FirstOwnedIn(r.sources, connector, e);
    }
  }

  lemma DirKept(p: Pass, r: Pass, items: seq<Content>, connector: string, x: SourceId)
    requires forall e :: EvidenceOf(r, connector, e) == EvidenceOf(p, connector, e)
    requires !Touched(p, items, |items|, connector, x) ==> DirOf(r.dirs, x) == DirOf(p.dirs, x)
    ensures DirOf(r.dirs, x) == DirOf(p.dirs, x)
  {
    hide FindExisting;
    if Touched(p, items, |items|, connector, x) {
      var m :| 0 <= m < |items| && FindExisting(p.sources, connector, items[m].externalId).Some?
               && FindExisting(p.sources, connector, items[m].externalId).value.id == x;
      assert EvidenceOf(r, connector, items[m].externalId) == EvidenceOf(p, connector, items[m].externalId);
    }
  }

  lemma Twice(p: Pass, items: seq<Content>, codec: Codec, connector: string, workspace: string, e: string)
    requires WellFormed(p) && p.leftOver.None? && |connector| > 0 && Harmless(items, codec)
    ensures var q := PersistAll(p, items, codec, connector, workspace);
            var again := Pass(q.sources, q.dirs, q.next, None);
            EvidenceOf(PersistAll(again, items, codec, connector, workspace), connector, e) == EvidenceOf(again, connector, e)
  {
    hide PersistAll, FoldEvidence, WellFormed, AtHome, Harmless, EvidenceOf;
    var q := PersistAll(p, items, codec, connector, workspace);
    var again := Pass(q.sources, q.dirs, q.next, None);
    NoneAtHome(p);
    PassInvariant(p, items, codec, connector, workspace);
    Emptied(q, connector, e);
    var drawn := PassEvidence(p, items, codec, connector, workspace, connector, e);
    var drawn' := PassEvidence(again, items, codec, connector, workspace, connector, e);
    FoldTwice(EvidenceOf(p, connector, e), items, e, drawn, drawn', codec, connector, workspace);
  }

  lemma ThereAfterwards(p: Pass, items: seq<Content>, codec: Codec, connector: string, workspace: string, m: nat)
    requires WellFormed(p) && p.leftOver.None? && |connector| > 0 && Harmless(items, codec)
    requires m < |items| && !IsEmpty(items[m]) && |items[m].externalId| > 0
    ensures FindExisting(PersistAll(p, items, codec, connector, workspace).sources, connector, items[m].externalId).Some?
  {
    hide PersistAll, FoldEvidence, WellFormed, Harmless, FindExisting;
    var drawn := PassEvidence(p, items, codec, connector, workspace, connector, items[m].externalId);
    FoldThere(EvidenceOf(p, connector, items[m].externalId), items, m, drawn, codec, connector, workspace);
  }

  lemma {:induction false} FoldThere(before: Option<Evidence>, items: seq<Content>, m: nat, drawn: SourceId, codec: Codec,
                                     connector: string, workspace: string)
    requires m < |items| && !IsEmpty(items[m])
    ensures FoldEvidence(before, items, items[m].externalId, drawn, codec, connector, workspace).Some?
  {
    hide HashOf, TextOf, ChunksOf, ChunkMap, Strip;
    if m < |items| - 1 {
      FoldThere(before, items[..|items| - 1], m, drawn, codec, connector, workspace);
    }
  }

  /** After a pass over harmless contents the stored chunks of each item that was written are exactly
      those of the text that was written last. */
  lemma ChunksReplaced(p: Pass, items: seq<Content>, codec: Codec, connector: string, workspace: string, e: string, k: nat)
    requires WellFormed(p) && p.leftOver.None? && |connector| > 0 && |e| > 0 && Harmless(items, codec)
    requires LastWritten(p, items, |items|, e, codec, connector, workspace) == Some(k)
    ensures k < |items|
    ensures var ev := EvidenceOf(PersistAll(p, items, codec, connector, workspace), connector, e);
            && ev.Some?
            && (forall ch :: ch in ChunksOf(TextOf(codec, items[k]), ev.value.source.id, workspace) ==>
                               ch.id in ev.value.chunks && ev.value.chunks[ch.id] == ch)
            && (forall id :: id in ev.value.chunks ==>
                               ev.value.chunks[id] in ChunksOf(TextOf(codec, items[k]), ev.value.source.id, workspace))
  {
    hide PersistAll, HashOf, TextOf, WellFormed, ChunkMap, Chunks, ParsedTexts, LastWritten, EvidenceOf, Harmless, Strip, ParsedJustBefore, Stale, Changes;
    PassChunksIff(p, items, codec, connector, workspace, e, k);
    assert !IsEmpty(items[k]) by { WrittenNotEmpty(p, items, codec, connector, workspace, e, k); }
    NotStale(p, items, k, codec, connector, workspace);
    StaleInPass(p, items, k, codec, connector, workspace, e);
    var ev := EvidenceOf(PersistAll(p, items, codec, connector, workspace), connector, e).value;
    var texts := ParsedTexts(TextOf(codec, items[k]));
    ChunkIdsDiffer(texts, ev.source.id, workspace);
    ChunkMapHolds(Chunks(texts, ev.source.id, workspace, 0));
  }

  lemma WrittenNotEmpty(p: Pass, items: seq<Content>, codec: Codec, connector: string, workspace: string, e: string, k: nat)
    requires LastWritten(p, items, |items|, e, codec, connector, workspace) == Some(k)
    ensures k < |items| && !IsEmpty(items[k])
  {
  }

  /** Such a pass: an item comes twice in a row, the second time with a blank text. Its old chunks
      are deleted, and then the chunk list left over from its first text is saved again, so that the
      hash of the blank text stands beside the chunks of the old one. */
  lemma LeftOverExample(codec: Codec, connector: string, workspace: string, id: string, text: string, blank: string)
    returns (q: Pass)
    requires |connector| > 0 && |id| > 0
    requires |Strip(text)| > 0 && |blank| > 0 && |Strip(blank)| == 0
    requires codec.encode(text) != codec.encode(blank)
    ensures q == PersistAll(Pass([], map[], 0, None), [Content(id, "", "", [], text), Content(id, "", "", [], blank)], codec, connector, workspace)
    ensures ParsedTexts(blank) == []
    ensures var ev := EvidenceOf(q, connector, id);
            && ev.Some? && ev.value.source.hash == Sha256(codec.encode(blank))
            && ev.value.chunks == ChunkMap(ChunksOf(text, 0, workspace))
  {
    hide Strip, ParsedTexts, Chunks;
    var a, b := Content(id, "", "", [], text), Content(id, "", "", [], blank);
    var start := Pass([], map[], 0, None);
    var p := PersistOne(start, a, codec, connector, workspace);
    q := PersistOne(p, b, codec, connector, workspace);
    assert [a, b][..1] == [a] && [a][..0] == [];
    assert PersistAll(start, [a], codec, connector, workspace) == PersistOne(PersistAll(start, [], codec, connector, workspace), a, codec, connector, workspace);
    VisibleHasChunks(blank);
    var cs := ChunksOf(text, 0, workspace);
    OwnSource(ParsedTexts(text), 0, workspace);
    WriteOwn(map[], cs, 0);
    var ds := NewSource(0, connector, a, Sha256(codec.encode(text)));
    assert p.sources == [ds] && p.leftOver == Some(cs);
    assert FirstOwned([ds], connector, id) == Some(ds);
    WriteOwn(p.dirs - {0}, cs, 0);
    assert |q.sources| == 1;
  }
}
