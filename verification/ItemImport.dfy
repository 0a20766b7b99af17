/** The fetch function of an import (src/decision_system/connectors/import_jobs.py,
    `run_import_v3`): it keeps the duplicate table and the version files in step. */
module ItemImport {
  import opened Prelude
  import opened Contents
  import opened Dedup
  import opened Provenance

  /** A content that was fetched for an item: its hash, and, unless it was known already, the number
      of the attempt to write a version for it. */
  datatype Fetch = Fetch(externalId: string, hash: Hash, attempt: Option<nat>)

  /** The hashes fetched for one item, in order. */
  ghost function HashesOf(log: seq<Fetch>, externalId: string): seq<Hash> {
    if log == [] then []
    else
      var last := log[|log| - 1];
      HashesOf(log[..|log| - 1], externalId) + if last.externalId == externalId then [last.hash] else []
  }

  /** A content that was recorded as new or changed. */
  datatype Recording = Recording(hash: Hash, attempt: nat)

  ghost function RecordingsOf(log: seq<Fetch>, externalId: string): seq<Recording> {
    if log == [] then []
    else
      var last := log[|log| - 1];
      RecordingsOf(log[..|log| - 1], externalId)
      + if last.externalId == externalId && last.attempt.Some? then [Recording(last.hash, last.attempt.value)] else []
  }

  ghost function Hashes(rs: seq<Recording>): (r: seq<Hash>)
    ensures |r| == |rs|
  {
    seq(|rs|, i requires 0 <= i < |rs| => rs[i].hash)
  }

  /** The recorded hashes whose version could be written. */
  ghost function Written(rs: seq<Recording>, key: Key, writes: (Key, nat) -> bool): seq<Hash> {
    if rs == [] then []
    else
      var last := rs[|rs| - 1];
      Written(rs[..|rs| - 1], key, writes) + if writes(key, last.attempt) then [last.hash] else []
  }

  /** What `Written` is: the hashes at some positions, in order, and these are exactly the positions
      where writing succeeded. */
  lemma {:induction false} WrittenAt(rs: seq<Recording>, key: Key, writes: (Key, nat) -> bool) returns (at: seq<nat>)
    ensures |at| == |Written(rs, key, writes)|
    ensures forall i, j :: 0 <= i < j < |at| ==> at[i] < at[j]
    ensures forall i :: 0 <= i < |at| ==> at[i] < |rs| && Written(rs, key, writes)[i] == rs[at[i]].hash
    ensures forall k: nat :: k < |rs| ==> (k in at <==> writes(key, rs[k].attempt))
  {
    at := [];
    if rs != [] {
      var n := |rs| - 1;
      at := WrittenAt(rs[..n], key, writes);
      if writes(key, rs[n].attempt) {
        at := at + [n];
      }
    }
  }

  /** All recordings were written if and only if as many were written as there are. */
  lemma {:induction false} AllWrittenIff(rs: seq<Recording>, key: Key, writes: (Key, nat) -> bool)
    ensures |Written(rs, key, writes)| <= |rs|
    ensures |Written(rs, key, writes)| == |rs| <==> forall k :: 0 <= k < |rs| ==> writes(key, rs[k].attempt)
  {
    if rs != [] {
      AllWrittenIff(rs[..|rs| - 1], key, writes);
    }
  }

  /** A sequence without its consecutive repeats. */
  ghost function StutterFree<T>(s: seq<T>): seq<T> {
    if |s| < 2 then s
    else if s[|s| - 1] == s[|s| - 2] then StutterFree(s[..|s| - 1])
    else StutterFree(s[..|s| - 1]) + [s[|s| - 1]]
  }

  /** What `StutterFree` is: each position of `s` belongs to one element of `runs`, neighbours to
      the same one if they are equal and to successive ones otherwise, and every element has
      positions that belong to it. */
  ghost predicate RunsOf<T>(s: seq<T>, runs: seq<T>, owner: seq<nat>) {
    && |owner| == |s|
    && (s == [] ==> runs == [])
    && (s != [] ==> owner[0] == 0 && owner[|s| - 1] == |runs| - 1)
    && (forall i :: 0 <= i < |s| - 1 ==> owner[i + 1] == owner[i] + if s[i + 1] == s[i] then 0 else 1)
    && (forall i :: 0 <= i < |s| ==> owner[i] < |runs| && runs[owner[i]] == s[i])
  }

  lemma {:induction false} StutterFreeRuns<T>(s: seq<T>) returns (owner: seq<nat>)
    ensures RunsOf(s, StutterFree(s), owner)
  {
    if |s| < 2 {
      owner := seq(|s|, i => 0);
    } else {
      var n := |s| - 1;
      owner := StutterFreeRuns(s[..n]);
      owner := owner + [owner[n - 1] + if s[n] == s[n - 1] then 0 else 1];
      RunsNext(s, StutterFree(s[..n]), owner);
    }
  }

  lemma RunsNext<T>(s: seq<T>, runs: seq<T>, owner: seq<nat>)
    requires |s| >= 2 && |owner| == |s| && RunsOf(s[..|s| - 1], runs, owner[..|s| - 1])
    requires var n := |s| - 1; owner[n] == owner[n - 1] + if s[n] == s[n - 1] then 0 else 1
    ensures RunsOf(s, if s[|s| - 1] == s[|s| - 2] then runs else runs + [s[|s| - 1]], owner)
  {
    var n := |s| - 1;
    var t, o := s[..n], owner[..n];
    assert forall i :: 0 <= i < n ==> t[i] == s[i] && o[i] == owner[i];
  }

  ghost function VersionHashes(vs: seq<VersionRecord>): (r: seq<Hash>)
    ensures |r| == |vs|
  {
    seq(|vs|, i requires 0 <= i < |vs| => vs[i].hash)
  }

  /** The table entry that goes with the hashes fetched so far. */
  ghost predicate EntryAgrees(table: map<string, Entry>, externalId: string, hashes: seq<Hash>) {
    if hashes == [] then externalId !in table
    else
      && externalId in table
      && table[externalId].hash == hashes[|hashes| - 1]
      && table[externalId].version == |StutterFree(hashes)|
  }

  /** Two tables have the same entry for an item, or both have none. */
  predicate SameEntry(table: map<string, Entry>, table': map<string, Entry>, e: string) {
    (e in table <==> e in table') && (e in table ==> table[e] == table'[e])
  }

  class ItemImporter {
    const scope: Scope
    const jobId: string
    const codec: Codec
    const useDedup: bool
    const useProvenance: bool
    const detector: DuplicateDetector
    const tracker: ProvenanceTracker
    /** What goes to the evidence bridge at the end of this import. */
    var collected: seq<Content>
    /** What was fetched for this connector, by this and earlier imports. */
    ghost var log: seq<Fetch>
    /** What was collected by this and earlier imports. */
    ghost var gathered: seq<Fetch>

    /** The recordings that go with a list of fetched hashes. */
    ghost function Recorded(hashes: seq<Hash>): seq<Hash> {
      if useDedup then StutterFree(hashes) else hashes
    }

    ghost function KeyOf(externalId: string): Key {
      Key(scope.workspace, scope.connector, externalId)
    }

    /** The recorded hashes that went on to be collected. */
    ghost function Kept(externalId: string, rs: seq<Recording>): seq<Hash> {
      if useProvenance then Written(rs, KeyOf(externalId), tracker.writes) else Hashes(rs)
    }

    /** A table, a version file and the collected contents agree with what was fetched for an item. */
    ghost predicate Agree(externalId: string, table: map<string, Entry>, vs: seq<VersionRecord>, collected: seq<Hash>,
                          hashes: seq<Hash>, rs: seq<Recording>)
    {
      && Hashes(rs) == Recorded(hashes)
      && (if useDedup then EntryAgrees(table, externalId, hashes) else externalId !in table)
      && collected == Kept(externalId, rs)
      && VersionHashes(vs) == if useProvenance then Kept(externalId, rs) else []
    }

    /** The stores agree with what was fetched for an item. */
    ghost predicate InStep(externalId: string)
      reads this`log, this`gathered, detector, tracker
    {
      Agree(externalId, detector.Table(scope), tracker.Records(KeyOf(externalId)), HashesOf(gathered, externalId),
            HashesOf(log, externalId), RecordingsOf(log, externalId))
    }

    /** A repeated hash changes nothing. */
    lemma AgreeRepeated(e: string, table: map<string, Entry>, vs: seq<VersionRecord>, collected: seq<Hash>,
                        hashes: seq<Hash>, rs: seq<Recording>, hash: Hash)
      requires useDedup && Agree(e, table, vs, collected, hashes, rs) && e in table && table[e].hash == hash
      ensures Agree(e, table, vs, collected, hashes + [hash], rs)
    {
      assert (hashes + [hash])[..|hashes|] == hashes;
    }

    lemma AgreeElsewhere(e: string, table: map<string, Entry>, table': map<string, Entry>, vs: seq<VersionRecord>,
                         collected: seq<Hash>, hashes: seq<Hash>, rs: seq<Recording>)
      requires Agree(e, table, vs, collected, hashes, rs)
      requires (e in table <==> e in table') && (e in table ==> table[e] == table'[e])
      ensures Agree(e, table', vs, collected, hashes, rs)
    {
    }

    /** A new hash goes to the table, and, if there is to be a version and it can be written, to the
        version file; only what came that far is collected. */
    lemma AgreeNew(e: string, table: map<string, Entry>, vs: seq<VersionRecord>, collected: seq<Hash>,
                   hashes: seq<Hash>, rs: seq<Recording>, hash: Hash, attempt: nat,
                   table': map<string, Entry>, vs': seq<VersionRecord>, id: Id)
      requires Agree(e, table, vs, collected, hashes, rs)
      requires useDedup ==>
                 && (e in table ==> table[e].hash != hash)
                 && e in table' && table'[e].hash == hash
                 && table'[e].version == (if e in table then table[e].version + 1 else 1)
      requires !useDedup ==> table' == table
      requires if useProvenance && tracker.writes(KeyOf(e), attempt) then Extends(vs, vs', id, hash) else vs' == vs
      ensures var goesOn := !useProvenance || tracker.writes(KeyOf(e), attempt);
              Agree(e, table', vs', if goesOn then collected + [hash] else collected, hashes + [hash], rs + [Recording(hash, attempt)])
    {
      hide StutterFree, Extends, EntryAgrees, Written;
      if useDedup {
        EntryNext(e, table, hashes, hash, table');
      }
      RecordedNext(hashes, rs, hash, attempt);
      KeptNext(e, rs, hash, attempt);
      if useProvenance && tracker.writes(KeyOf(e), attempt) {
        ExtendsKeeps(vs, vs', id, hash);
        assert VersionHashes(vs') == VersionHashes(vs) + [hash];
      }
    }

    lemma RecordedNext(hashes: seq<Hash>, rs: seq<Recording>, hash: Hash, attempt: nat)
      requires Hashes(rs) == Recorded(hashes) && (useDedup && hashes != [] ==> hashes[|hashes| - 1] != hash)
      ensures Hashes(rs + [Recording(hash, attempt)]) == Recorded(hashes + [hash])
    {
      assert (hashes + [hash])[..|hashes|] == hashes;
      assert Hashes(rs + [Recording(hash, attempt)]) == Hashes(rs) + [hash];
    }

    lemma KeptNext(e: string, rs: seq<Recording>, hash: Hash, attempt: nat)
      ensures Kept(e, rs + [Recording(hash, attempt)]) ==
              if !useProvenance || tracker.writes(KeyOf(e), attempt) then Kept(e, rs) + [hash] else Kept(e, rs)
    {
      var rs' := rs + [Recording(hash, attempt)];
      assert rs'[..|rs|] == rs;
      assert Hashes(rs') == Hashes(rs) + [hash];
      assert Written(rs, KeyOf(e), tracker.writes) + [] == Written(rs, KeyOf(e), tracker.writes);
    }

    lemma EntryNext(e: string, table: map<string, Entry>, hashes: seq<Hash>, hash: Hash, table': map<string, Entry>)
      requires EntryAgrees(table, e, hashes) && (e in table ==> table[e].hash != hash)
      requires e in table' && table'[e].hash == hash && table'[e].version == if e in table then table[e].version + 1 else 1
      ensures EntryAgrees(table', e, hashes + [hash])
      ensures hashes != [] ==> hashes[|hashes| - 1] != hash
    {
      assert (hashes + [hash])[..|hashes|] == hashes;
    }

    ghost predicate Valid()
      reads this`log, this`gathered, detector, tracker
    {
      tracker.Valid() && forall externalId :: InStep(externalId)
    }

    /** An import over empty stores. */
    constructor (scope: Scope, jobId: string, codec: Codec, useDedup: bool, useProvenance: bool,
                 detector: DuplicateDetector, tracker: ProvenanceTracker)
      requires tracker.Valid() && detector.Table(scope) == map[]
      requires forall e :: tracker.Records(Key(scope.workspace, scope.connector, e)) == []
      ensures Valid() && log == [] && gathered == [] && collected == []
      ensures this.scope == scope && this.detector == detector && this.tracker == tracker && this.codec == codec
      ensures this.useDedup == useDedup && this.useProvenance == useProvenance
    {
      this.scope, this.jobId, this.codec := scope, jobId, codec;
      this.useDedup, this.useProvenance := useDedup, useProvenance;
      this.detector, this.tracker := detector, tracker;
      collected, log, gathered := [], [], [];
    }

    /** A later import over the stores that an earlier one left. */
    constructor Again(before: ItemImporter, jobId: string)
      requires before.Valid()
      ensures Valid() && log == before.log && gathered == before.gathered && collected == []
      ensures scope == before.scope && detector == before.detector && tracker == before.tracker && codec == before.codec
      ensures useDedup == before.useDedup && useProvenance == before.useProvenance
    {
      scope, this.jobId, codec := before.scope, jobId, before.codec;
      useDedup, useProvenance := before.useDedup, before.useProvenance;
      detector, tracker := before.detector, before.tracker;
      collected, log, gathered := [], before.log, before.gathered;
      new;
      forall e ensures InStep(e) {
        assert before.InStep(e);
      }
    }

    /** Notes that the content of an item was fetched again unchanged. */
    ghost method NoteRepeated(id: string, hash: Hash)
      requires Valid() && useDedup && id in detector.Table(scope) && detector.Table(scope)[id].hash == hash
      modifies this`log
      ensures Valid() && log == old(log) + [Fetch(id, hash, None)]
    {
      hide Agree, HashesOf, RecordingsOf;
      log := log + [Fetch(id, hash, None)];
      forall e ensures InStep(e) {
        assert old(InStep(e));
        NextOf(old(log), Fetch(id, hash, None), e);
        if e == id {
          AgreeRepeated(id, detector.Table(scope), tracker.Records(KeyOf(id)), HashesOf(gathered, id),
                        HashesOf(old(log), id), RecordingsOf(old(log), id), hash);
        }
      }
    }

    /** The table entry of an item after a new or changed content. */
    function NextEntry(table: map<string, Entry>, id: string, hash: Hash, sourceId: string, sourceUrl: string): Entry {
      Entry(hash, sourceId, sourceUrl, if id in table then table[id].version + 1 else 1)
    }

    /** The latest version has this content, by this job. */
    ghost predicate LastVersionIs(vs: seq<VersionRecord>, hash: Hash, title: string) {
      |vs| > 0 && vs[|vs| - 1].hash == hash && vs[|vs| - 1].jobId == jobId && vs[|vs| - 1].title == title
    }

    /** Records a new or changed content: first in the table, then in the version file. */
    method Register(id: string, hash: Hash, sourceId: string, sourceUrl: string, title: string) returns (stored: bool)
      requires Valid() && (useDedup && id in detector.Table(scope) ==> detector.Table(scope)[id].hash != hash)
      modifies this`log, this`gathered, detector, tracker
      ensures Valid() && log == old(log) + [Fetch(id, hash, Some(old(tracker.nextId)))]
      ensures stored == (!useProvenance || tracker.writes(KeyOf(id), old(tracker.nextId)))
      ensures gathered == if stored then old(gathered) + [Fetch(id, hash, None)] else old(gathered)
      ensures useDedup ==> id in detector.Table(scope) && detector.Table(scope)[id] == NextEntry(old(detector.Table(scope)), id, hash, sourceId, sourceUrl)
      ensures stored && useProvenance ==> LastVersionIs(tracker.Records(KeyOf(id)), hash, title)
      ensures forall e :: e != id ==> SameEntry(old(detector.Table(scope)), detector.Table(scope), e)
    {
      hide Agree, Extends, StutterFree, HashesOf, RecordingsOf, Chain, Drawn;
      ghost var table, attempt := detector.Table(scope), tracker.nextId;
      if useDedup {
        detector.RecordImport(scope, id, hash, sourceId, sourceUrl, 1);
      }
      stored := true;
      var versionId := NoId;
      if useProvenance {
        stored, versionId := tracker.CreateVersion(Key(scope.workspace, scope.connector, id), hash, jobId, title);
        if stored {
          ExtendsKeeps(old(tracker.Records(KeyOf(id))), tracker.Records(KeyOf(id)), versionId, hash);
        }
      }
      log := log + [Fetch(id, hash, Some(attempt))];
      if stored {
        gathered := gathered + [Fetch(id, hash, None)];
      }
      ghost var table' := detector.Table(scope);
      forall e ensures InStep(e) {
        assert old(InStep(e));
        AgreeNext(e, id, hash, attempt, table, old(tracker.Records(KeyOf(e))), old(gathered), old(log),
                  table', tracker.Records(KeyOf(e)), gathered, log, versionId);
      }
    }

    lemma AgreeNext(e: string, id: string, hash: Hash, attempt: nat,
                    table: map<string, Entry>, vs: seq<VersionRecord>, gathered: seq<Fetch>, log: seq<Fetch>,
                    table': map<string, Entry>, vs': seq<VersionRecord>, gathered': seq<Fetch>, log': seq<Fetch>, versionId: Id)
      requires Agree(e, table, vs, HashesOf(gathered, e), HashesOf(log, e), RecordingsOf(log, e))
      requires log' == log + [Fetch(id, hash, Some(attempt))]
      requires var goesOn := !useProvenance || tracker.writes(KeyOf(id), attempt);
               gathered' == if goesOn then gathered + [Fetch(id, hash, None)] else gathered
      requires e == id && useDedup ==>
                 && (e in table ==> table[e].hash != hash)
                 && e in table' && table'[e].hash == hash
                 && table'[e].version == (if e in table then table[e].version + 1 else 1)
      requires !useDedup ==> table' == table
      requires e != id ==> (e in table <==> e in table') && (e in table ==> table[e] == table'[e])
      requires if e == id && useProvenance && tracker.writes(KeyOf(e), attempt) then Extends(vs, vs', versionId, hash) else vs' == vs
      ensures Agree(e, table', vs', HashesOf(gathered', e), HashesOf(log', e), RecordingsOf(log', e))
    {
      hide Agree, Extends, StutterFree, HashesOf, RecordingsOf;
      NextOf(log, Fetch(id, hash, Some(attempt)), e);
      NextOf(gathered, Fetch(id, hash, None), e);
      if e == id {
        AgreeNew(e, table, vs, HashesOf(gathered, e), HashesOf(log, e), RecordingsOf(log, e), hash, attempt, table', vs', versionId);
      } else {
        AgreeElsewhere(e, table, table', vs, HashesOf(gathered, e), HashesOf(log, e), RecordingsOf(log, e));
      }
    }

    /** Handles one fetched content. Nothing happens when nothing was fetched, or when the table
        says that the content is unchanged; otherwise the table, the version file and the
        collection of the evidence bridge all get the new content, except that a version file
        that cannot be written raises after the table has been updated. */
    method FetchItem(item: RuntimeItem, fetched: Option<Content>) returns (raised: bool, content: Option<Content>)
      requires Valid()
      modifies this, detector, tracker
      ensures Valid()
      ensures var known := fetched.Some? && useDedup && item.externalId in old(detector.Table(scope))
                           && old(detector.Table(scope))[item.externalId].hash == HashOf(codec, fetched.value);
              && log == (if fetched.None? then old(log)
                         else old(log) + [Fetch(item.externalId, HashOf(codec, fetched.value), if known then None else Some(old(tracker.nextId)))])
              && raised == (fetched.Some? && !known && useProvenance && !tracker.writes(KeyOf(item.externalId), old(tracker.nextId)))
              && collected == (if fetched.None? || known || raised then old(collected) else old(collected) + [fetched.value])
              && gathered == (if fetched.None? || known || raised then old(gathered)
                              else old(gathered) + [Fetch(item.externalId, HashOf(codec, fetched.value), None)])
      ensures content == if raised then None else fetched
      ensures |collected| > |old(collected)| && useProvenance ==>
                LastVersionIs(tracker.Records(KeyOf(item.externalId)), HashOf(codec, fetched.value), item.title)
      ensures useDedup && fetched.Some? ==>
                var table, hash := old(detector.Table(scope)), HashOf(codec, fetched.value);
                && item.externalId in detector.Table(scope)
                && detector.Table(scope)[item.externalId] ==
                   if item.externalId in table && table[item.externalId].hash == hash then table[item.externalId]
                   else NextEntry(table, item.externalId, hash, fetched.value.externalId, item.sourceUrl)
      ensures useDedup && fetched.Some? ==>
                item.externalId in detector.Table(scope) && detector.Table(scope)[item.externalId].hash == HashOf(codec, fetched.value)
      ensures forall e :: e != item.externalId || fetched.None? ==> SameEntry(old(detector.Table(scope)), detector.Table(scope), e)
    {
      hide InStep, HashOf;
      content, raised := fetched, false;
      if fetched.None? {
        return;
      }
      var hash := HashOf(codec, fetched.value);
      if useDedup {
        var r := detector.CheckDuplicate(scope, item.externalId, hash);
        if r.isUnchanged {
          NoteRepeated(item.externalId, hash);
          return;
        }
      }
      var stored := Register(item.externalId, hash, fetched.value.externalId, item.sourceUrl, item.title);
      if !stored {
        return true, None;
      }
      collected := collected + [fetched.value];
    }
  }

  lemma NextOf(log: seq<Fetch>, f: Fetch, e: string)
    ensures HashesOf(log + [f], e) == if e == f.externalId then HashesOf(log, e) + [f.hash] else HashesOf(log, e)
    ensures RecordingsOf(log + [f], e) ==
            if e == f.externalId && f.attempt.Some? then RecordingsOf(log, e) + [Recording(f.hash, f.attempt.value)] else RecordingsOf(log, e)
  {
    assert (log + [f])[..|log|] == log;
    assert HashesOf(log, e) + [] == HashesOf(log, e);
    assert RecordingsOf(log, e) + [] == RecordingsOf(log, e);
  }

  /** The version history of an item is the stutter-free history of its content: over any sequence
      of fetches, interleaved with those of other items and spread over several imports, and
      whichever writes fail, what is recorded are the fetched hashes without consecutive repeats,
      the version counter says how many, and the version chain has those of them whose write
      succeeded, in order. */
  lemma VersionHistory(i: ItemImporter, e: string)
    requires i.Valid() && i.useDedup && i.useProvenance
    ensures var vs, rs := i.tracker.Records(i.KeyOf(e)), RecordingsOf(i.log, e);
            && Chain(vs)
            && Hashes(rs) == StutterFree(HashesOf(i.log, e))
            && VersionHashes(vs) == Written(rs, i.KeyOf(e), i.tracker.writes)
            && (rs != [] ==> e in i.detector.Table(i.scope) && i.detector.Table(i.scope)[e].version == |rs|)
    ensures (forall n :: i.tracker.writes(i.KeyOf(e), n)) ==>
              VersionHashes(i.tracker.Records(i.KeyOf(e))) == StutterFree(HashesOf(i.log, e))
  {
    hide HashesOf, StutterFree, RecordingsOf;
    assert i.InStep(e);
    EmptyChain();
    if HashesOf(i.log, e) == [] {
      NothingToRepeat();
    }
    if forall n :: i.tracker.writes(i.KeyOf(e), n) {
      EveryWrite(RecordingsOf(i.log, e), i.KeyOf(e), i.tracker.writes);
    }
  }

  lemma NothingToRepeat()
    ensures StutterFree<Hash>([]) == []
  {
  }

  lemma {:induction false} EveryWrite(rs: seq<Recording>, key: Key, writes: (Key, nat) -> bool)
    requires forall k :: 0 <= k < |rs| ==> writes(key, rs[k].attempt)
    ensures Written(rs, key, writes) == Hashes(rs)
  {
    if rs != [] {
      EveryWrite(rs[..|rs| - 1], key, writes);
      assert Hashes(rs) == Hashes(rs[..|rs| - 1]) + [rs[|rs| - 1].hash];
    }
  }

  /** The version counter of the duplicate table equals the length of the version chain if and only
      if every version could be written: the table is updated first, so each failed write leaves it
      one further ahead. */
  lemma CounterInStepIff(i: ItemImporter, e: string)
    requires i.Valid() && i.useDedup && i.useProvenance && RecordingsOf(i.log, e) != []
    ensures e in i.detector.Table(i.scope)
    ensures i.detector.Table(i.scope)[e].version >= |i.tracker.Records(i.KeyOf(e))|
    ensures var rs := RecordingsOf(i.log, e);
            i.detector.Table(i.scope)[e].version == |i.tracker.Records(i.KeyOf(e))|
            <==> forall k :: 0 <= k < |rs| ==> i.tracker.writes(i.KeyOf(e), rs[k].attempt)
  {
    hide HashesOf, StutterFree, RecordingsOf;
    VersionHistory(i, e);
    AllWrittenIff(RecordingsOf(i.log, e), i.KeyOf(e), i.tracker.writes);
  }

  /** A content with a given hash has been collected, by this or an earlier import, if and only if a
      version with that hash could be written. So a content that is returned because the table knows
      it need not have reached the evidence bridge. */
  lemma CollectedIff(i: ItemImporter, e: string, hash: Hash)
    requires i.Valid() && i.useProvenance
    ensures var rs := RecordingsOf(i.log, e);
            hash in HashesOf(i.gathered, e) <==> exists k :: 0 <= k < |rs| && rs[k].hash == hash && i.tracker.writes(i.KeyOf(e), rs[k].attempt)
  {
    hide HashesOf, StutterFree, RecordingsOf, Written;
    assert i.InStep(e);
    assert HashesOf(i.gathered, e) == Written(RecordingsOf(i.log, e), i.KeyOf(e), i.tracker.writes);
    InWritten(RecordingsOf(i.log, e), i.KeyOf(e), i.tracker.writes, hash);
  }

  lemma {:induction false} InWritten(rs: seq<Recording>, key: Key, writes: (Key, nat) -> bool, hash: Hash)
    ensures hash in Written(rs, key, writes) <==> exists k :: 0 <= k < |rs| && rs[k].hash == hash && writes(key, rs[k].attempt)
  {
    if rs != [] {
      InWritten(rs[..|rs| - 1], key, writes, hash);
      assert rs == rs[..|rs| - 1] + [rs[|rs| - 1]];
    }
  }

  /** An item whose version file cannot be written, here because its external id names a directory
      that is not there: its first content raises, after the table has been updated; fetched again,
      in a later import, it is returned as unchanged, although it has no version and was never
      collected. */
  method NestedIdExample(scope: Scope, codec: Codec, item: RuntimeItem, content: Content)
    returns (i: ItemImporter, raised: bool, again: Option<Content>)
    requires '/' in item.externalId
    ensures i.Valid() && raised && again == Some(content)
    ensures item.externalId in i.detector.Table(i.scope) && i.detector.Table(i.scope)[item.externalId].version == 1
    ensures i.tracker.Records(i.KeyOf(item.externalId)) == [] && HashesOf(i.gathered, item.externalId) == []
  {
    hide HashOf, HashesOf, RecordingsOf, ItemImporter.Valid;
    var detector := new DuplicateDetector();
    var tracker := new ProvenanceTracker((key: Key, n: nat) => '/' !in key.externalId);
    var first := new ItemImporter(scope, "first", codec, true, true, detector, tracker);
    var none;
    ghost var attempt := tracker.nextId;
    raised, none := first.FetchItem(item, Some(content));
    ghost var f := Fetch(item.externalId, HashOf(codec, content), Some(attempt));
    assert first.log == [f];
    i := new ItemImporter.Again(first, "second");
    var raises;
    raises, again := i.FetchItem(item, Some(content));
    ghost var g := Fetch(item.externalId, HashOf(codec, content), None);
    assert i.log == [f] + [g];
    TwiceFetched(i, f, g);
  }

  /** What the stores have when an item's content has been recorded once, without being written, and
      then came again. */
  lemma TwiceFetched(i: ItemImporter, f: Fetch, g: Fetch)
    requires i.Valid() && i.useDedup && i.useProvenance && i.log == [f] + [g] && i.gathered == []
    requires f.externalId == g.externalId && f.hash == g.hash && f.attempt.Some? && g.attempt.None?
    requires !i.tracker.writes(i.KeyOf(f.externalId), f.attempt.value)
    ensures f.externalId in i.detector.Table(i.scope) && i.detector.Table(i.scope)[f.externalId].version == 1
    ensures i.tracker.Records(i.KeyOf(f.externalId)) == [] && HashesOf(i.gathered, f.externalId) == []
  {
    hide StutterFree;
    var e := f.externalId;
    NextOf([], f, e);
    assert [] + [f] == [f];
    NextOf([f], g, e);
    var rs := [Recording(f.hash, f.attempt.value)];
    assert RecordingsOf(i.log, e) == [] + rs;
    assert rs[..0] == [];
    VersionHistory(i, e);
    assert VersionHashes(i.tracker.Records(i.KeyOf(e))) == [];
  }
}
