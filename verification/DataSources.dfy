/** The data sources of a workspace (src/decision_system/data_sources/store.py): one record file
    per source, an index file that lists the source ids, and a directory of chunks per source. */
module DataSources {
  import opened Prelude
  import opened Contents
  import opened Chunking

  datatype SourceStatus = Uploaded | Parsed | Indexed | Archived

  datatype DataSource = DataSource(
    id: SourceId, name: string, hash: Hash, status: SourceStatus, metadata: map<string, string>)

  ghost predicate UniqueSources(l: seq<DataSource>) {
    forall i, j :: 0 <= i < j < |l| ==> l[i].id != l[j].id
  }

  // ------------------------------------------------------------------
  // An insertion-ordered map of sources

  /** Setting a source: in place if its id is there, at the end otherwise. */
  function Put(l: seq<DataSource>, ds: DataSource): seq<DataSource> {
    if l == [] then [ds]
    else if l[0].id == ds.id then [ds] + l[1..]
    else [l[0]] + Put(l[1..], ds)
  }

  function Remove(l: seq<DataSource>, id: SourceId): seq<DataSource> {
    if l == [] then []
    else if l[0].id == id then l[1..]
    else [l[0]] + Remove(l[1..], id)
  }

  /** The position of the first source with an id, or the length of the list. */
  function IndexOf(l: seq<DataSource>, id: SourceId): (k: nat)
    ensures k <= |l| && (forall i :: 0 <= i < k ==> l[i].id != id) && (k < |l| ==> l[k].id == id)
  {
    if l == [] || l[0].id == id then 0 else 1 + IndexOf(l[1..], id)
  }

  lemma {:induction false} PutIs(l: seq<DataSource>, ds: DataSource)
    ensures var k := IndexOf(l, ds.id);
            Put(l, ds) == if k == |l| then l + [ds] else l[k := ds]
  {
    if l != [] && l[0].id != ds.id {
      PutIs(l[1..], ds);
      assert l == [l[0]] + l[1..];
    }
  }

  lemma PutAt(l: seq<DataSource>, ds: DataSource)
    requires UniqueSources(l)
    ensures UniqueSources(Put(l, ds)) && |Put(l, ds)| >= |l|
    ensures forall i :: 0 <= i < |l| ==> Put(l, ds)[i] == if l[i].id == ds.id then ds else l[i]
    ensures (exists i :: 0 <= i < |l| && l[i].id == ds.id) ==> |Put(l, ds)| == |l|
    ensures (forall i :: 0 <= i < |l| ==> l[i].id != ds.id) ==> Put(l, ds) == l + [ds]
    ensures |Put(l, ds)| > |l| ==> Put(l, ds) == l + [ds]
  {
    hide Put, IndexOf;
    PutIs(l, ds);
    var k := IndexOf(l, ds.id);
  }

  lemma {:induction false} RemoveKeeps(l: seq<DataSource>, id: SourceId)
    requires UniqueSources(l)
    ensures UniqueSources(Remove(l, id))
    ensures forall ds :: ds in Remove(l, id) <==> ds in l && ds.id != id
  {
    if l == [] {
    } else if l[0].id == id {
      assert l == [l[0]] + l[1..];
    } else {
      RemoveKeeps(l[1..], id);
      assert l == [l[0]] + l[1..];
      var r := Remove(l[1..], id);
      forall j | 0 <= j < |r| ensures r[j].id != l[0].id {
        assert r[j] in l[1..];
      }
    }
  }

  // ------------------------------------------------------------------
  // The files

  /** The sources listed by an index, in index order; ids without a record are passed over. */
  function Listing(index: seq<SourceId>, records: map<SourceId, DataSource>): seq<DataSource> {
    if index == [] then []
    else (if index[0] in records then [records[index[0]]] else []) + Listing(index[1..], records)
  }

  lemma {:induction false} ListingAppend(index: seq<SourceId>, id: SourceId, records: map<SourceId, DataSource>)
    ensures Listing(index + [id], records) == if id in records then Listing(index, records) + [records[id]] else Listing(index, records)
  {
    if index == [] {
      assert [] + [id] == [id] && [id][1..] == [];
      assert Listing([id], records) == (if id in records then [records[id]] else []) + Listing([], records);
    } else {
      var rest, head := index[1..], if index[0] in records then [records[index[0]]] else [];
      assert (index + [id])[1..] == rest + [id];
      ListingAppend(rest, id, records);
      if id in records {
        assert head + (Listing(rest, records) + [records[id]]) == (head + Listing(rest, records)) + [records[id]];
      }
    }
  }

  /** The index has no duplicates and lists exactly the ids that have a record, which is filed
      under its own id. */
  ghost predicate Consistent(index: seq<SourceId>, records: map<SourceId, DataSource>) {
    && NoDuplicates(index)
    && (forall id :: id in index <==> id in records)
    && (forall id :: id in records ==> records[id].id == id)
  }

  lemma {:induction false} ListingAt(index: seq<SourceId>, records: map<SourceId, DataSource>)
    requires forall id :: id in index ==> id in records
    ensures |Listing(index, records)| == |index|
    ensures forall i :: 0 <= i < |index| ==> Listing(index, records)[i] == records[index[i]]
  {
    if index != [] {
      assert index == [index[0]] + index[1..];
      ListingAt(index[1..], records);
    }
  }

  lemma ConsistentListing(index: seq<SourceId>, records: map<SourceId, DataSource>)
    requires Consistent(index, records)
    ensures UniqueSources(Listing(index, records))
  {
    ListingAt(index, records);
    forall i, j | 0 <= i < j < |index| ensures records[index[i]].id != records[index[j]].id {
      assert index[i] in records && index[j] in records;
    }
  }

  lemma ListingReplace(index: seq<SourceId>, records: map<SourceId, DataSource>, ds: DataSource)
    requires Consistent(index, records) && ds.id in index
    ensures Consistent(index, records[ds.id := ds])
    ensures Listing(index, records[ds.id := ds]) == Put(Listing(index, records), ds)
  {
    hide Put, Listing, UniqueSources, NoDuplicates;
    var l := Listing(index, records);
    ConsistentListing(index, records);
    ListingAt(index, records);
    ListingAt(index, records[ds.id := ds]);
    PutAt(l, ds);
    var k :| 0 <= k < |index| && index[k] == ds.id;
    assert l[k].id == ds.id;
    forall i | 0 <= i < |index| ensures Listing(index, records[ds.id := ds])[i] == Put(l, ds)[i] {
      assert index[i] in records && l[i].id == index[i];
    }
  }

  lemma ListingNew(index: seq<SourceId>, records: map<SourceId, DataSource>, ds: DataSource)
    requires Consistent(index, records) && ds.id !in index
    ensures Consistent(index + [ds.id], records[ds.id := ds])
    ensures Listing(index + [ds.id], records[ds.id := ds]) == Put(Listing(index, records), ds)
  {
    hide Put, Listing, UniqueSources;
    var l := Listing(index, records);
    ConsistentListing(index, records);
    ListingAt(index, records);
    ListingAt(index + [ds.id], records[ds.id := ds]);
    forall i | 0 <= i < |l| ensures l[i].id != ds.id {
      assert index[i] in records;
    }
    PutAt(l, ds);
  }

  function RemoveId(index: seq<SourceId>, id: SourceId): seq<SourceId> {
    if index == [] then []
    else if index[0] == id then index[1..]
    else [index[0]] + RemoveId(index[1..], id)
  }

  lemma {:induction false} RemoveIdKeeps(index: seq<SourceId>, id: SourceId)
    requires NoDuplicates(index)
    ensures NoDuplicates(RemoveId(index, id))
    ensures forall x :: x in RemoveId(index, id) <==> x in index && x != id
  {
    if index != [] {
      assert index == [index[0]] + index[1..];
      if index[0] != id {
        RemoveIdKeeps(index[1..], id);
        var r := RemoveId(index[1..], id);
        forall j | 0 <= j < |r| ensures r[j] != index[0] {
          assert r[j] in index[1..];
        }
      }
    }
  }

  lemma {:induction false} ListingDelete(index: seq<SourceId>, records: map<SourceId, DataSource>, id: SourceId)
    requires NoDuplicates(index) && (forall x :: x in index ==> x in records && records[x].id == x)
    ensures Listing(RemoveId(index, id), records - {id}) == Remove(Listing(index, records), id)
  {
    if index != [] {
      var rest := index[1..];
      assert index == [index[0]] + rest;
      if index[0] == id {
        ListingAgrees(rest, records, records - {id});
        assert Listing(index, records)[1..] == Listing(rest, records);
      } else {
        ListingDelete(rest, records, id);
        var l := Listing(index, records);
        assert l == [records[index[0]]] + Listing(rest, records) && l[1..] == Listing(rest, records);
        assert RemoveId(index, id)[1..] == RemoveId(rest, id);
      }
    }
  }

  lemma {:induction false} ListingAgrees(index: seq<SourceId>, records: map<SourceId, DataSource>, records': map<SourceId, DataSource>)
    requires forall x :: x in index ==> x in records && x in records' && records[x] == records'[x]
    ensures Listing(index, records) == Listing(index, records')
  {
    if index != [] {
      ListingAgrees(index[1..], records, records');
    }
  }

  /** Writing chunk files: each goes to the directory of its own source. */
  function WriteChunks(dirs: map<SourceId, map<ChunkId, Chunk>>, chunks: seq<Chunk>): map<SourceId, map<ChunkId, Chunk>> {
    if chunks == [] then dirs
    else
      var c := chunks[|chunks| - 1];
      var before := WriteChunks(dirs, chunks[..|chunks| - 1]);
      before[c.sourceId := (if c.sourceId in before then before[c.sourceId] else map[])[c.id := c]]
  }

  class DataSourceStore {
    const workspaceId: string
    var index: seq<SourceId>
    var records: map<SourceId, DataSource>
    var dirs: map<SourceId, map<ChunkId, Chunk>>
    /** No identifier from here on has been drawn. */
    var nextSource: SourceId

    ghost predicate Valid()
      reads this
    {
      && Consistent(index, records)
      && (forall id :: id in records ==> id < nextSource)
      && (forall id :: id in dirs ==> id < nextSource)
    }

    ghost function Sources(): seq<DataSource>
      reads this
    {
      Listing(index, records)
    }

    constructor (workspaceId: string)
      ensures Valid() && Sources() == [] && dirs == map[] && nextSource == 0 && this.workspaceId == workspaceId
    {
      this.workspaceId := workspaceId;
      index, records, dirs, nextSource := [], map[], map[], 0;
    }

    method DrawId() returns (id: SourceId)
      requires Valid()
      modifies this`nextSource
      ensures Valid() && id == old(nextSource) && nextSource == id + 1
    {
      id := nextSource;
      nextSource := nextSource + 1;
    }

    method Save(ds: DataSource)
      requires Valid() && ds.id < nextSource
      modifies this`index, this`records
      ensures Valid() && Sources() == Put(old(Sources()), ds)
    {
      if ds.id in index {
        ListingReplace(index, records, ds);
      } else {
        ListingNew(index, records, ds);
      }
      records := records[ds.id := ds];
      if ds.id !in index {
        index := index + [ds.id];
      }
    }

    method Load(id: SourceId) returns (ds: Option<DataSource>)
      ensures ds == if id in records then Some(records[id]) else None
    {
      ds := if id in records then Some(records[id]) else None;
    }

    method Delete(id: SourceId) returns (existed: bool)
      requires Valid()
      modifies this`index, this`records
      ensures Valid() && Sources() == Remove(old(Sources()), id)
      ensures existed <==> id in old(records)
    {
      existed := id in records;
      ListingDelete(index, records, id);
      RemoveIdKeeps(index, id);
      records := records - {id};
      index := RemoveId(index, id);
    }

    method ListByWorkspace() returns (sources: seq<DataSource>)
      ensures sources == Sources()
    {
      sources := [];
      for n := 0 to |index|
        invariant sources == Listing(index[..n], records)
      {
        var s := Load(index[n]);
        ListingAppend(index[..n], index[n], records);
        assert index[..n + 1] == index[..n] + [index[n]];
        if s.Some? {
          sources := sources + [s.value];
        }
      }
      assert index[..|index|] == index;
    }

    /** The first source in index order that has the metadata value. */
    method FindByMetadata(key: string, value: string) returns (ds: Option<DataSource>)
      ensures ds == FirstWith(Sources(), key, value)
    {
      var sources := ListByWorkspace();
      for n := 0 to |sources|
        invariant FirstWith(sources, key, value) == FirstWith(sources[n..], key, value)
      {
        if Has(sources[n], key, value) {
          return Some(sources[n]);
        }
      }
      ds := None;
    }

    method SaveChunks(chunks: seq<Chunk>)
      requires Valid() && forall i :: 0 <= i < |chunks| ==> chunks[i].sourceId < nextSource
      modifies this`dirs
      ensures Valid() && dirs == WriteChunks(old(dirs), chunks)
    {
      for n := 0 to |chunks|
        invariant Valid() && dirs == WriteChunks(old(dirs), chunks[..n])
      {
        var c := chunks[n];
        assert chunks[..n + 1][..n] == chunks[..n];
        dirs := dirs[c.sourceId := (if c.sourceId in dirs then dirs[c.sourceId] else map[])[c.id := c]];
      }
      assert chunks[..|chunks|] == chunks;
    }

    method DeleteChunks(id: SourceId)
      requires Valid()
      modifies this`dirs
      ensures Valid() && dirs == old(dirs) - {id}
    {
      dirs := dirs - {id};
    }
  }

  predicate Has(ds: DataSource, key: string, value: string) {
    key in ds.metadata && ds.metadata[key] == value
  }

  function FirstWith(l: seq<DataSource>, key: string, value: string): Option<DataSource> {
    if l == [] then None
    else if Has(l[0], key, value) then Some(l[0])
    else FirstWith(l[1..], key, value)
  }

  // ------------------------------------------------------------------
  // Runs of saves and deletes

  datatype StoreOp = SaveOp(ds: DataSource) | DeleteOp(id: SourceId)

  function OpId(op: StoreOp): SourceId {
    if op.SaveOp? then op.ds.id else op.id
  }

  /** What a sequence of operations leaves in the listing. */
  ghost function After(ops: seq<StoreOp>): seq<DataSource> {
    if ops == [] then []
    else
      var before, op := After(ops[..|ops| - 1]), ops[|ops| - 1];
      if op.SaveOp? then Put(before, op.ds) else Remove(before, op.id)
  }

  /** The value that was saved last for an id, unless it has been deleted since. */
  ghost function LastSaved(ops: seq<StoreOp>, id: SourceId): Option<DataSource> {
    if ops == [] then None
    else
      var op := ops[|ops| - 1];
      if OpId(op) != id then LastSaved(ops[..|ops| - 1], id)
      else if op.SaveOp? then Some(op.ds) else None
  }

  /** When an id was first saved, counting from its last deletion. */
  ghost function Born(ops: seq<StoreOp>, id: SourceId): nat
    requires LastSaved(ops, id).Some?
    ensures Born(ops, id) < |ops|
  {
    var before := ops[..|ops| - 1];
    if LastSaved(before, id).Some? then Born(before, id) else |ops| - 1
  }

  /** The store refines an insertion-ordered map: the listing has exactly the value saved last for
      each live id, in the order in which the ids were first saved. */
  lemma {:induction false} ListingIsLatest(ops: seq<StoreOp>)
    ensures UniqueSources(After(ops))
    ensures forall i :: 0 <= i < |After(ops)| ==> LastSaved(ops, After(ops)[i].id) == Some(After(ops)[i])
    ensures forall id :: LastSaved(ops, id).Some? ==> LastSaved(ops, id).value in After(ops) && LastSaved(ops, id).value.id == id
  {
    if ops != [] {
      var before, op := ops[..|ops| - 1], ops[|ops| - 1];
      ListingIsLatest(before);
      var l := After(before);
      if op.SaveOp? {
        PutAt(l, op.ds);
        PutMembers(l, op.ds);
      } else {
        RemoveKeeps(l, op.id);
      }
      forall i | 0 <= i < |After(ops)| ensures LastSaved(ops, After(ops)[i].id) == Some(After(ops)[i]) {
        var ds := After(ops)[i];
        assert ds in After(ops);
        if ds.id != OpId(op) {
          assert ds in l;
        }
      }
    }
  }

  /** A store taken through some operations, each saved source under an id that has been drawn, lists
      just that. */
  method RunOps(store: DataSourceStore, ops: seq<StoreOp>)
    requires store.Valid() && store.Sources() == []
    requires forall i :: 0 <= i < |ops| && ops[i].SaveOp? ==> ops[i].ds.id < store.nextSource
    modifies store
    ensures store.Valid() && store.Sources() == After(ops)
  {
    hide Listing, Put, Remove, Consistent;
    for n := 0 to |ops|
      invariant store.Valid() && store.Sources() == After(ops[..n]) && store.nextSource == old(store.nextSource)
    {
      assert ops[..n + 1][..n] == ops[..n];
      match ops[n]
      case SaveOp(ds) =>
        store.Save(ds);
      case DeleteOp(id) =>
        var existed := store.Delete(id);
    }
    assert ops[..|ops|] == ops;
  }

  lemma PutMembers(l: seq<DataSource>, ds: DataSource)
    requires UniqueSources(l)
    ensures forall x :: x in Put(l, ds) <==> x == ds || (x in l && x.id != ds.id)
  {
    PutAt(l, ds);
    var r := Put(l, ds);
    forall x ensures x in r <==> x == ds || (x in l && x.id != ds.id) {
      if x in l && x.id != ds.id {
        var i :| 0 <= i < |l| && l[i] == x;
        assert r[i] == x;
      }
      if x == ds {
        if i :| 0 <= i < |l| && l[i].id == ds.id {
          assert r[i] == ds;
        } else {
          assert r[|l|] == ds;
        }
      }
    }
  }

  lemma {:induction false} ListingInBirthOrder(ops: seq<StoreOp>, i: nat, j: nat)
    requires i < j < |After(ops)|
    ensures LastSaved(ops, After(ops)[i].id).Some? && LastSaved(ops, After(ops)[j].id).Some?
    ensures Born(ops, After(ops)[i].id) < Born(ops, After(ops)[j].id)
  {
    ListingIsLatest(ops);
    var before, op := ops[..|ops| - 1], ops[|ops| - 1];
    ListingIsLatest(before);
    var l, r := After(before), After(ops);
    if op.SaveOp? {
      PutAt(l, op.ds);
      if j < |l| {
        assert r[i].id == l[i].id && r[j].id == l[j].id;
        ListingInBirthOrder(before, i, j);
      } else {
        assert r == l + [op.ds];
        assert LastSaved(before, l[i].id).Some?;
        assert LastSaved(before, op.ds.id).None?;
      }
    } else {
      var a, b := RemoveOrder(l, op.id, i, j);
      ListingInBirthOrder(before, a, b);
      RemoveKeeps(l, op.id);
      assert r[i] in r && r[j] in r;
    }
  }

  lemma {:induction false} RemoveOrder(l: seq<DataSource>, id: SourceId, i: nat, j: nat) returns (a: nat, b: nat)
    requires i < j < |Remove(l, id)|
    ensures a < b < |l| && Remove(l, id)[i] == l[a] && Remove(l, id)[j] == l[b]
  {
    if l[0].id == id {
      a, b := i + 1, j + 1;
    } else if i == 0 {
      assert Remove(l, id)[j] == Remove(l[1..], id)[j - 1];
      a := 0;
      b := RemoveAt(l[1..], id, j - 1);
      b := b + 1;
    } else {
      a, b := RemoveOrder(l[1..], id, i - 1, j - 1);
      a, b := a + 1, b + 1;
    }
  }

  lemma {:induction false} RemoveAt(l: seq<DataSource>, id: SourceId, j: nat) returns (b: nat)
    requires j < |Remove(l, id)|
    ensures b < |l| && Remove(l, id)[j] == l[b]
  {
    if l[0].id == id {
      b := j + 1;
    } else if j == 0 {
      b := 0;
    } else {
      b := RemoveAt(l[1..], id, j - 1);
      b := b + 1;
    }
  }
}
