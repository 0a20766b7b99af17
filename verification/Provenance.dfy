/** The version history of imported items (src/decision_system/connectors/provenance.py). */
module Provenance {
  import opened Prelude
  import opened Contents

  /** A version identifier: the empty string, or one of the identifiers drawn so far. */
  datatype Id = NoId | Uuid(n: nat)

  /** A version as it is written to the file of its item. */
  datatype VersionRecord = VersionRecord(
    versionId: Id, number: int, previous: Id, supersededBy: Id, jobId: string, hash: Hash, title: string)

  /** A version in memory. */
  class SourceVersion {
    var versionId: Id
    var number: int
    var previous: Id
    var supersededBy: Id
    var jobId: string
    var hash: Hash
    var title: string

    constructor (r: VersionRecord)
      ensures ToDict() == r
    {
      versionId, number, previous, supersededBy := r.versionId, r.number, r.previous, r.supersededBy;
      jobId, hash, title := r.jobId, r.hash, r.title;
    }

    function ToDict(): VersionRecord
      reads this
    {
      VersionRecord(versionId, number, previous, supersededBy, jobId, hash, title)
    }
  }

  ghost function Dicts(versions: seq<SourceVersion>): (r: seq<VersionRecord>)
    reads versions
    ensures |r| == |versions|
  {
    seq(|versions|, i requires 0 <= i < |versions| reads versions => versions[i].ToDict())
  }

  // ------------------------------------------------------------------
  // Version chains

  /** A doubly linked chain: numbers count from one, identifiers differ, each version names the
      one before it and is named by it as its successor, and only the last has no successor. */
  ghost predicate Chain(vs: seq<VersionRecord>) {
    && (forall i :: 0 <= i < |vs| ==> vs[i].number == i + 1 && vs[i].versionId != NoId)
    && (forall i, j :: 0 <= i < j < |vs| ==> vs[i].versionId != vs[j].versionId)
    && (vs != [] ==> vs[0].previous == NoId && vs[|vs| - 1].supersededBy == NoId)
    && (forall i :: 0 <= i < |vs| - 1 ==>
          vs[i + 1].previous == vs[i].versionId && vs[i].supersededBy == vs[i + 1].versionId)
  }

  /** No identifier of the chain is still to be drawn. */
  ghost predicate Drawn(vs: seq<VersionRecord>, next: nat) {
    forall i :: 0 <= i < |vs| ==> vs[i].versionId.Uuid? && vs[i].versionId.n < next
  }

  /** `after` is `before` with one more version: the new one is linked to the last, nothing else
      of the earlier versions is different. */
  ghost predicate Extends(before: seq<VersionRecord>, after: seq<VersionRecord>, id: Id, hash: Hash) {
    && |after| == |before| + 1
    && after[|before|].versionId == id && after[|before|].hash == hash
    && after[|before|].number == |before| + 1 && after[|before|].supersededBy == NoId
    && after[|before|].previous == (if before == [] then NoId else before[|before| - 1].versionId)
    && (forall i :: 0 <= i < |before| - 1 ==> after[i] == before[i])
    && (before != [] ==>
          var i := |before| - 1;
          && after[i].versionId == before[i].versionId && after[i].number == before[i].number
          && after[i].previous == before[i].previous && after[i].hash == before[i].hash
          && after[i].jobId == before[i].jobId && after[i].title == before[i].title
          && after[i].supersededBy == id)
  }

  lemma ExtendsKeepsChain(before: seq<VersionRecord>, after: seq<VersionRecord>, id: nat, hash: Hash)
    requires Chain(before) && Drawn(before, id) && Extends(before, after, Uuid(id), hash)
    ensures Chain(after) && Drawn(after, id + 1)
  {
    var n := |before|;
    forall i | 0 <= i < |after| ensures after[i].versionId.Uuid? && after[i].versionId.n < id + 1 {
      if i < n { assert before[i].versionId.n < id && after[i].versionId == before[i].versionId; }
    }
    forall i | 0 <= i < |after| ensures after[i].number == i + 1 && after[i].versionId != NoId {
      if i < n { assert before[i].number == i + 1; }
    }
    forall i, j | 0 <= i < j < |after| ensures after[i].versionId != after[j].versionId {
      assert after[i].versionId == before[i].versionId && before[i].versionId.n < id;
      if j < n { assert after[j].versionId == before[j].versionId; }
    }
    forall i | 0 <= i < |after| - 1
      ensures after[i + 1].previous == after[i].versionId && after[i].supersededBy == after[i + 1].versionId
    {
      if i < n - 1 { assert before[i + 1].previous == before[i].versionId; }
    }
  }

  /** What never changes about a version once it exists. */
  ghost predicate Preserved(before: seq<VersionRecord>, after: seq<VersionRecord>) {
    && |before| <= |after|
    && (forall i :: 0 <= i < |before| ==>
          && after[i].versionId == before[i].versionId && after[i].number == before[i].number
          && after[i].hash == before[i].hash && after[i].previous == before[i].previous)
    && (forall i :: 0 <= i < |before| - 1 ==> after[i].supersededBy == before[i].supersededBy)
  }

  /** A run of `create_version` calls on one item: the states of its file, each the one before
      with one more version, under identifiers drawn in increasing order. */
  ghost predicate Run(states: seq<seq<VersionRecord>>, ids: seq<nat>, hashes: seq<Hash>) {
    && |states| == |ids| + 1 == |hashes| + 1
    && states[0] == []
    && (forall i :: 0 <= i < |ids| ==> Extends(states[i], states[i + 1], Uuid(ids[i]), hashes[i]))
    && (forall i, j :: 0 <= i < j < |ids| ==> ids[i] < ids[j])
  }

  /** After any number of calls the file holds a chain with exactly the given hashes. */
  lemma {:induction false} RunIsChain(states: seq<seq<VersionRecord>>, ids: seq<nat>, hashes: seq<Hash>, n: nat)
    requires Run(states, ids, hashes) && n < |states|
    ensures Chain(states[n]) && |states[n]| == n
    ensures forall i :: 0 <= i < n ==> states[n][i].hash == hashes[i] && states[n][i].versionId == Uuid(ids[i])
  {
    hide Chain, Extends;
    if n == 0 {
      EmptyChain();
    } else {
      RunIsChain(states, ids, hashes, n - 1);
      ExtendsKeeps(states[n - 1], states[n], Uuid(ids[n - 1]), hashes[n - 1]);
      ExtendsKeepsChain(states[n - 1], states[n], ids[n - 1], hashes[n - 1]);
    }
  }

  lemma EmptyChain()
    ensures Chain([])
  {
  }

  lemma ExtendsKeeps(before: seq<VersionRecord>, after: seq<VersionRecord>, id: Id, hash: Hash)
    requires Extends(before, after, id, hash)
    ensures |after| == |before| + 1 && after[|before|].versionId == id && after[|before|].hash == hash
    ensures forall i :: 0 <= i < |before| ==> after[i].versionId == before[i].versionId && after[i].hash == before[i].hash
  {
  }

  /** No call changes anything of an earlier version but the successor of the last one. */
  lemma {:induction false} RunPreserves(states: seq<seq<VersionRecord>>, ids: seq<nat>, hashes: seq<Hash>, m: nat, n: nat)
    requires Run(states, ids, hashes) && m <= n < |states|
    ensures Preserved(states[m], states[n])
  {
    if m < n {
      RunPreserves(states, ids, hashes, m, n - 1);
      assert Extends(states[n - 1], states[n], Uuid(ids[n - 1]), hashes[n - 1]);
    }
  }

  /** The source identifier of a version number, as the file is searched for it. */
  function SourceIdFor(vs: seq<VersionRecord>, number: int): Option<Id> {
    if vs == [] then None
    else if vs[0].number == number then Some(vs[0].versionId)
    else SourceIdFor(vs[1..], number)
  }

  lemma {:induction false} SourceIdAt(vs: seq<VersionRecord>, number: int, from: nat)
    requires forall i :: 0 <= i < |vs| ==> vs[i].number == from + i + 1
    ensures SourceIdFor(vs, number) ==
            if from < number <= from + |vs| then Some(vs[number - from - 1].versionId) else None
  {
    if vs != [] {
      SourceIdAt(vs[1..], number, from + 1);
    }
  }

  /** Citations stay valid: once a version number resolves, it resolves to the same source for
      ever, and before that it does not resolve. */
  lemma SourceIdIsStable(states: seq<seq<VersionRecord>>, ids: seq<nat>, hashes: seq<Hash>, m: nat, n: nat, number: int)
    requires Run(states, ids, hashes) && m <= n < |states|
    ensures SourceIdFor(states[m], number) == if 1 <= number <= m then Some(Uuid(ids[number - 1])) else None
    ensures SourceIdFor(states[m], number).Some? ==> SourceIdFor(states[n], number) == SourceIdFor(states[m], number)
  {
    RunIsChain(states, ids, hashes, m);
    RunIsChain(states, ids, hashes, n);
    SourceIdAt(states[m], number, 0);
    SourceIdAt(states[n], number, 0);
  }

  // ------------------------------------------------------------------
  // The tracker

  /** The file of an item: workspace (or the global scope), connector and external id. */
  datatype Key = Key(workspace: string, connector: string, externalId: string)

  class ProvenanceTracker {
    /** Whether writing the file of an item succeeds, at each attempt: it fails, for instance, when
        the external id names a directory that does not exist or makes the name too long. */
    const writes: (Key, nat) -> bool
    var files: map<Key, seq<VersionRecord>>
    var nextId: nat

    ghost predicate Valid()
      reads this
    {
      forall k :: k in files ==> Chain(files[k]) && Drawn(files[k], nextId)
    }

    constructor (writes: (Key, nat) -> bool)
      ensures Valid() && files == map[] && this.writes == writes
    {
      this.writes := writes;
      files, nextId := map[], 0;
    }

    function Records(key: Key): seq<VersionRecord>
      reads this
    {
      if key in files then files[key] else []
    }

    /** Reads the file of an item into fresh objects, in file order. */
    method GetVersions(key: Key) returns (versions: seq<SourceVersion>)
      ensures Dicts(versions) == Records(key)
      ensures forall i :: 0 <= i < |versions| ==> fresh(versions[i])
      ensures forall i, j :: 0 <= i < j < |versions| ==> versions[i] != versions[j]
    {
      var data := Records(key);
      versions := [];
      for n := 0 to |data|
        invariant |versions| == n
        invariant forall i :: 0 <= i < n ==> fresh(versions[i]) && versions[i].ToDict() == data[i]
        invariant forall i, j :: 0 <= i < j < n ==> versions[i] != versions[j]
      {
        var v := new SourceVersion(data[n]);
        versions := versions + [v];
      }
    }

    /** The object with the greatest version number; in a chain, the last one. */
    method Latest(versions: seq<SourceVersion>) returns (latest: SourceVersion)
      requires versions != [] && Chain(Dicts(versions))
      ensures latest == versions[|versions| - 1]
    {
      latest := versions[0];
      ghost var dicts := Dicts(versions);
      assert dicts[0].number == 1 == latest.number;
      for n := 1 to |versions|
        invariant latest == versions[n - 1]
      {
        assert dicts[n].number == n + 1 && dicts[n - 1].number == n;
        assert dicts[n] == versions[n].ToDict() && dicts[n - 1] == versions[n - 1].ToDict();
        if versions[n].number > latest.number {
          latest := versions[n];
        }
      }
    }

    /** The list that is written for one more version: the latest one, an object of the list that was
        just read, is linked to it in place. */
    method Extended(key: Key, id: Id, hash: Hash, jobId: string, title: string) returns (data: seq<VersionRecord>)
      requires Chain(Records(key))
      ensures Extends(Records(key), data, id, hash)
      ensures data != [] && data[|data| - 1].jobId == jobId && data[|data| - 1].title == title
    {
      hide Chain, Extends;
      var versions := GetVersions(key);
      ghost var before := Records(key);
      var number, previous := 1, NoId;
      if versions != [] {
        var latest := Latest(versions);
        number, previous := latest.number + 1, latest.versionId;
        assert latest.ToDict() == before[|before| - 1];
        latest.supersededBy := id;
      }
      var record := VersionRecord(id, number, previous, NoId, jobId, hash, title);
      data := Saved(versions) + [record];
      LinkExtends(before, Saved(versions), record);
    }

    /** Adds a version and writes the list back. If writing fails nothing has been stored. */
    method CreateVersion(key: Key, hash: Hash, jobId: string, title: string) returns (stored: bool, id: Id)
      requires Valid()
      modifies this
      ensures Valid()
      ensures stored == writes(key, old(nextId)) && id == Uuid(old(nextId)) && nextId == old(nextId) + 1
      ensures !stored ==> files == old(files)
      ensures stored ==>
                && key in files && Extends(old(Records(key)), files[key], id, hash)
                && |files[key]| > 0 && files[key][|files[key]| - 1].jobId == jobId && files[key][|files[key]| - 1].title == title
                && files.Keys == old(files).Keys + {key}
                && forall k :: k in old(files) && k != key ==> files[k] == old(files)[k]
    {
      hide Chain, Extends;
      EmptyChain();
      id := Uuid(nextId);
      var data := Extended(key, id, hash, jobId, title);
      ExtendsKeepsChain(Records(key), data, nextId, hash);
      stored := writes(key, nextId);
      nextId := nextId + 1;
      if stored {
        files := files[key := data];
      }
    }

    /** The list that is written extends the one that was read. */
    lemma LinkExtends(before: seq<VersionRecord>, saved: seq<VersionRecord>, record: VersionRecord)
      requires Chain(before) && |saved| == |before|
      requires forall i :: 0 <= i < |before| - 1 ==> saved[i] == before[i]
      requires before != [] ==>
                 var i := |before| - 1;
                 saved[i] == VersionRecord(before[i].versionId, before[i].number, before[i].previous, record.versionId,
                                           before[i].jobId, before[i].hash, before[i].title)
      requires record.number == (if before == [] then 1 else before[|before| - 1].number + 1)
      requires record.previous == (if before == [] then NoId else before[|before| - 1].versionId)
      requires record.supersededBy == NoId
      ensures Extends(before, saved + [record], record.versionId, record.hash)
    {
    }

    /** The dictionaries that are written for a list of versions. */
    function Saved(versions: seq<SourceVersion>): (r: seq<VersionRecord>)
      reads versions
      ensures |r| == |versions|
      ensures forall i :: 0 <= i < |r| ==> r[i] == versions[i].ToDict()
    {
      if versions == [] then [] else [versions[0].ToDict()] + Saved(versions[1..])
    }

    method GetSourceIdForVersion(key: Key, number: int) returns (id: Option<Id>)
      ensures id == SourceIdFor(Records(key), number)
    {
      var data := Records(key);
      for n := 0 to |data|
        invariant SourceIdFor(data, number) == SourceIdFor(data[n..], number)
      {
        if data[n].number == number {
          return Some(data[n].versionId);
        }
      }
      id := None;
    }
  }

  /** Versions created one after the other are such a run; the ones that could not be written leave no
      trace in it. */
  method CreateVersions(tracker: ProvenanceTracker, key: Key, hashes: seq<Hash>)
    returns (ghost states: seq<seq<VersionRecord>>, ghost ids: seq<nat>, ghost kept: seq<Hash>)
    requires tracker.Valid() && tracker.Records(key) == []
    modifies tracker
    ensures tracker.Valid()
    ensures Run(states, ids, kept) && states[|states| - 1] == tracker.Records(key)
    ensures (forall n :: tracker.writes(key, n)) ==> kept == hashes
  {
    hide Chain, Extends, ProvenanceTracker.Valid;
    states, ids, kept := [[]], [], [];
    for n := 0 to |hashes|
      invariant tracker.Valid() && Run(states, ids, kept) && states[|states| - 1] == tracker.Records(key)
      invariant forall i :: 0 <= i < |ids| ==> ids[i] < tracker.nextId
      invariant (forall n :: tracker.writes(key, n)) ==> kept == hashes[..n]
    {
      ghost var before, attempt := tracker.Records(key), tracker.nextId;
      var stored, id := tracker.CreateVersion(key, hashes[n], "", "");
      assert hashes[..n + 1] == hashes[..n] + [hashes[n]];
      if stored {
        OneMoreVersion(states, ids, kept, tracker.Records(key), attempt, hashes[n]);
        states, ids, kept := states + [tracker.Records(key)], ids + [attempt], kept + [hashes[n]];
      }
    }
    assert hashes[..|hashes|] == hashes;
  }

  lemma OneMoreVersion(states: seq<seq<VersionRecord>>, ids: seq<nat>, hashes: seq<Hash>, after: seq<VersionRecord>, id: nat, hash: Hash)
    requires Run(states, ids, hashes) && Extends(states[|states| - 1], after, Uuid(id), hash)
    requires forall i :: 0 <= i < |ids| ==> ids[i] < id
    ensures Run(states + [after], ids + [id], hashes + [hash])
  {
    hide Extends;
    var states', ids', hashes' := states + [after], ids + [id], hashes + [hash];
    forall i | 0 <= i < |ids'| ensures Extends(states'[i], states'[i + 1], Uuid(ids'[i]), hashes'[i]) {
      if i < |ids| {
        assert Extends(states[i], states[i + 1], Uuid(ids[i]), hashes[i]);
      }
    }
  }
}
