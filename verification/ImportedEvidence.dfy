/** Imports and the evidence they leave (src/decision_system/connectors/import_jobs.py): the contents
    that an import has collected go to the evidence bridge when its batches are done. */
module ImportedEvidence {
  import opened Prelude
  import opened Contents
  import opened DataSources
  import opened EvidenceBridge
  import opened EvidenceHistory
  import opened ItemImport
  import opened Provenance

  /** What comes back for an item; a content carries the id of its item. */
  datatype Fetched = Fetched(item: RuntimeItem, content: Option<Content>)

  ghost predicate OwnIds(fetches: seq<Fetched>) {
    forall n :: 0 <= n < |fetches| && fetches[n].content.Some? ==>
                  fetches[n].content.value.externalId == fetches[n].item.externalId
  }

  /** All contents of some bridge calls, in order. */
  ghost function Flat(calls: seq<BridgeCall>): seq<Content> {
    if calls == [] then [] else Flat(calls[..|calls| - 1]) + calls[|calls| - 1].items
  }

  /** The contents are those that have been collected, one by one. */
  ghost predicate Matched(gathered: seq<Fetch>, contents: seq<Content>, codec: Codec) {
    && |gathered| == |contents|
    && forall i :: 0 <= i < |gathered| ==> gathered[i] == Fetch(contents[i].externalId, HashOf(codec, contents[i]), None)
  }

  /** Of the collected contents, those that were sent to the bridge. */
  ghost function SentOf(gathered: seq<Fetch>, sent: seq<bool>): seq<Fetch>
    requires |sent| == |gathered|
  {
    if gathered == [] then []
    else
      var n := |gathered| - 1;
      SentOf(gathered[..n], sent[..n]) + if sent[n] then [gathered[n]] else []
  }

  /** Several more collected contents, all sent or all dropped. */
  lemma {:induction false} SentMore(gathered: seq<Fetch>, sent: seq<bool>, more: seq<Fetch>, all: bool)
    requires |sent| == |gathered|
    ensures var sent' := sent + seq(|more|, i => all);
            |sent'| == |gathered + more| && SentOf(gathered + more, sent') == SentOf(gathered, sent) + if all then more else []
  {
    var sent' := sent + seq(|more|, i => all);
    if more == [] {
      assert gathered + more == gathered && sent' == sent;
    } else {
      var n := |more| - 1;
      SentMore(gathered, sent, more[..n], all);
      var g := gathered + more;
      assert g[..|g| - 1] == gathered + more[..n] && sent'[..|g| - 1] == sent + seq(n, i => all);
      assert more == more[..n] + [more[n]];
    }
  }

  /** One import: its fetches, and then the bridge, unless the loop over the batches raised. */
  method ImportOnce(importer: ItemImporter, store: DataSourceStore, fetches: seq<Fetched>, failed: bool,
                    ghost p: Pass, ghost calls: seq<BridgeCall>, ghost sent: seq<bool>)
    returns (ghost calls': seq<BridgeCall>, ghost sent': seq<bool>)
    requires importer.Valid() && store.Valid() && OwnIds(fetches) && importer.collected == []
    requires |sent| == |importer.gathered| && Matched(SentOf(importer.gathered, sent), Flat(calls), importer.codec)
    requires Pass(store.Sources(), store.dirs, store.nextSource, None) == AfterCalls(p, calls, importer.codec, store.workspaceId)
    modifies importer, importer.detector, importer.tracker, store
    ensures importer.Valid() && store.Valid()
    ensures calls' == if failed then calls else calls + [BridgeCall(importer.scope.connector, importer.collected)]
    ensures |sent'| == |importer.gathered| && Matched(SentOf(importer.gathered, sent'), Flat(calls'), importer.codec)
    ensures |sent| <= |sent'| && sent'[..|sent|] == sent && forall k :: |sent| <= k < |sent'| ==> (sent'[k] <==> !failed)
    ensures Pass(store.Sources(), store.dirs, store.nextSource, None) == AfterCalls(p, calls', importer.codec, store.workspaceId)
  {
    hide HashOf, ItemImporter.Valid, Listing, PersistAll, AfterCalls, DataSourceStore.Valid, Flat, SentOf;
    ghost var gathered0, more := importer.gathered, [];
    for n := 0 to |fetches|
      invariant importer.Valid() && store.Valid()
      invariant importer.gathered == gathered0 + more && Matched(more, importer.collected, importer.codec)
      invariant Pass(store.Sources(), store.dirs, store.nextSource, None) == AfterCalls(p, calls, importer.codec, store.workspaceId)
    {
      ghost var gathered, collected := importer.gathered, importer.collected;
      var raised, content := importer.FetchItem(fetches[n].item, fetches[n].content);
      if importer.collected != collected {
        more := more + [Fetch(fetches[n].item.externalId, HashOf(importer.codec, fetches[n].content.value), None)];
      }
    }
    sent' := sent + seq(|more|, i => !failed);
    SentMore(gathered0, sent, more, !failed);
    calls' := calls;
    if !failed {
      calls' := calls + [BridgeCall(importer.scope.connector, importer.collected)];
      FlatNext(calls, BridgeCall(importer.scope.connector, importer.collected));
      MatchedConcat(SentOf(gathered0, sent), Flat(calls), more, importer.collected, importer.codec);
      CallsNext(p, calls, BridgeCall(importer.scope.connector, importer.collected), importer.codec, store.workspaceId);
      if importer.collected != [] {
        var saved := PersistConnectorContent(store, importer.collected, importer.codec, importer.scope.connector);
      } else {
        NoContents(AfterCalls(p, calls, importer.codec, store.workspaceId), importer.codec, importer.scope.connector, store.workspaceId);
      }
    } else {
      assert SentOf(gathered0, sent) + [] == SentOf(gathered0, sent);
    }
  }

  lemma MatchedConcat(a: seq<Fetch>, c: seq<Content>, b: seq<Fetch>, d: seq<Content>, codec: Codec)
    requires Matched(a, c, codec) && Matched(b, d, codec)
    ensures Matched(a + b, c + d, codec)
  {
    hide HashOf;
  }

  lemma FlatNext(calls: seq<BridgeCall>, call: BridgeCall)
    ensures Flat(calls + [call]) == Flat(calls) + call.items
  {
    assert (calls + [call])[..|calls|] == calls;
  }

  lemma CallsNext(p: Pass, calls: seq<BridgeCall>, call: BridgeCall, codec: Codec, workspace: string)
    ensures var q := PersistAll(AfterCalls(p, calls, codec, workspace), call.items, codec, call.connector, workspace);
            AfterCalls(p, calls + [call], codec, workspace) == Pass(q.sources, q.dirs, q.next, None)
  {
    hide PersistAll;
    assert (calls + [call])[..|calls|] == calls;
  }

  lemma NoContents(p: Pass, codec: Codec, connector: string, workspace: string)
    ensures PersistAll(p, [], codec, connector, workspace) == p
  {
  }

  /** The collected hashes of an item are those of its contents. */
  lemma {:induction false} MatchedHashes(gathered: seq<Fetch>, contents: seq<Content>, codec: Codec, e: string)
    requires Matched(gathered, contents, codec)
    ensures |HashesOf(gathered, e)| == |ContentsOf(contents, e)|
    ensures forall i :: 0 <= i < |HashesOf(gathered, e)| ==> HashesOf(gathered, e)[i] == HashOf(codec, ContentsOf(contents, e)[i])
  {
    hide HashOf;
    if gathered != [] {
      MatchedHashes(gathered[..|gathered| - 1], contents[..|contents| - 1], codec, e);
    }
  }

  lemma {:induction false} FlatHistory(calls: seq<BridgeCall>, c: string, e: string)
    requires forall i :: 0 <= i < |calls| ==> calls[i].connector == c
    ensures ContentsOf(Flat(calls), e) == History(calls, c, e)
  {
    hide ContentsOf;
    if calls == [] {
      NoneOf(e);
    } else {
      FlatHistory(calls[..|calls| - 1], c, e);
      ContentsConcat(Flat(calls[..|calls| - 1]), calls[|calls| - 1].items, e);
    }
  }

  lemma NoneOf(e: string)
    ensures ContentsOf([], e) == []
  {
  }

  lemma {:induction false} ContentsConcat(a: seq<Content>, b: seq<Content>, e: string)
    ensures ContentsOf(a + b, e) == ContentsOf(a, e) + ContentsOf(b, e)
  {
    if b == [] {
      assert a + b == a;
    } else {
      assert (a + b)[..|a + b| - 1] == a + b[..|b| - 1];
      ContentsConcat(a, b[..|b| - 1], e);
    }
  }

  lemma {:induction false} LatestIn(contents: seq<Content>)
    ensures Latest(contents).Some? ==> Latest(contents).value in contents && !IsEmpty(Latest(contents).value)
    ensures contents != [] && !IsEmpty(contents[|contents| - 1]) ==> Latest(contents) == Some(contents[|contents| - 1])
  {
    hide IsEmpty;
    if contents != [] {
      LatestIn(contents[..|contents| - 1]);
    }
  }

  /** Which of an item's collected contents were sent. */
  ghost function FlagsOf(gathered: seq<Fetch>, sent: seq<bool>, e: string): seq<bool>
    requires |sent| == |gathered|
  {
    if gathered == [] then []
    else
      var n := |gathered| - 1;
      FlagsOf(gathered[..n], sent[..n], e) + if gathered[n].externalId == e then [sent[n]] else []
  }

  /** The elements whose flag is set. */
  ghost function Picked(hashes: seq<Hash>, flags: seq<bool>): seq<Hash>
    requires |flags| == |hashes|
  {
    if hashes == [] then []
    else
      var n := |hashes| - 1;
      Picked(hashes[..n], flags[..n]) + if flags[n] then [hashes[n]] else []
  }

  lemma PickedNext(hashes: seq<Hash>, flags: seq<bool>, hash: Hash, flag: bool)
    requires |flags| == |hashes|
    ensures Picked(hashes + [hash], flags + [flag]) == Picked(hashes, flags) + if flag then [hash] else []
  {
    assert (hashes + [hash])[..|hashes|] == hashes && (flags + [flag])[..|flags|] == flags;
  }

  /** The positions whose flag is set. */
  ghost function Trues(flags: seq<bool>): (at: seq<nat>)
    ensures forall i :: 0 <= i < |at| ==> at[i] < |flags|
  {
    if flags == [] then []
    else
      var n := |flags| - 1;
      Trues(flags[..n]) + if flags[n] then [n] else []
  }

  lemma {:induction false} PickedAt(hashes: seq<Hash>, flags: seq<bool>)
    requires |flags| == |hashes|
    ensures |Trues(flags)| == |Picked(hashes, flags)|
    ensures forall i, j :: 0 <= i < j < |Trues(flags)| ==> Trues(flags)[i] < Trues(flags)[j]
    ensures forall i :: 0 <= i < |Trues(flags)| ==> Picked(hashes, flags)[i] == hashes[Trues(flags)[i]]
  {
    if hashes != [] {
      PickedAt(hashes[..|hashes| - 1], flags[..|flags| - 1]);
    }
  }

  lemma {:induction false} TruesIff(flags: seq<bool>, k: nat)
    requires k < |flags|
    ensures k in Trues(flags) <==> flags[k]
  {
    if k < |flags| - 1 {
      TruesIff(flags[..|flags| - 1], k);
    }
  }

  lemma {:induction false} SentArePicked(gathered: seq<Fetch>, sent: seq<bool>, e: string)
    requires |sent| == |gathered|
    ensures |FlagsOf(gathered, sent, e)| == |HashesOf(gathered, e)|
    ensures HashesOf(SentOf(gathered, sent), e) == Picked(HashesOf(gathered, e), FlagsOf(gathered, sent, e))
  {
    hide Picked;
    if gathered == [] {
      NonePicked();
    } else {
      var n := |gathered| - 1;
      SentArePicked(gathered[..n], sent[..n], e);
      OneMoreSent(gathered, sent, e);
      PickedNext(HashesOf(gathered[..n], e), FlagsOf(gathered[..n], sent[..n], e), gathered[n].hash, sent[n]);
    }
  }

  lemma NonePicked()
    ensures Picked([], []) == []
  {
  }

  lemma OneMoreSent(gathered: seq<Fetch>, sent: seq<bool>, e: string)
    requires |sent| == |gathered| && gathered != []
    ensures var n := |gathered| - 1;
            && (gathered[n].externalId == e ==>
                  && HashesOf(gathered, e) == HashesOf(gathered[..n], e) + [gathered[n].hash]
                  && FlagsOf(gathered, sent, e) == FlagsOf(gathered[..n], sent[..n], e) + [sent[n]])
            && (gathered[n].externalId != e ==>
                  && HashesOf(gathered, e) == HashesOf(gathered[..n], e)
                  && FlagsOf(gathered, sent, e) == FlagsOf(gathered[..n], sent[..n], e))
            && HashesOf(SentOf(gathered, sent), e) == HashesOf(SentOf(gathered[..n], sent[..n]), e)
                                                    + if gathered[n].externalId == e && sent[n] then [gathered[n].hash] else []
  {
    var n := |gathered| - 1;
    var s := SentOf(gathered[..n], sent[..n]);
    assert HashesOf(gathered[..n], e) + [] == HashesOf(gathered[..n], e) && HashesOf(s, e) + [] == HashesOf(s, e);
    assert FlagsOf(gathered[..n], sent[..n], e) + [] == FlagsOf(gathered[..n], sent[..n], e);
    if sent[n] {
      NextOf(s, gathered[n], e);
    } else {
      assert s + [] == s;
    }
  }

  /** The sent hashes of an item are its collected hashes at exactly the positions whose content was sent,
      in order. */
  lemma SentHashes(gathered: seq<Fetch>, sent: seq<bool>, e: string) returns (at: seq<nat>)
    requires |sent| == |gathered|
    ensures |FlagsOf(gathered, sent, e)| == |HashesOf(gathered, e)| && |at| == |HashesOf(SentOf(gathered, sent), e)|
    ensures forall i, j :: 0 <= i < j < |at| ==> at[i] < at[j]
    ensures forall i :: 0 <= i < |at| ==> at[i] < |HashesOf(gathered, e)|
                                          && HashesOf(SentOf(gathered, sent), e)[i] == HashesOf(gathered, e)[at[i]]
    ensures forall k: nat :: k < |HashesOf(gathered, e)| ==> (k in at <==> FlagsOf(gathered, sent, e)[k])
  {
    hide Picked, FlagsOf, SentOf, HashesOf, Trues;
    SentArePicked(gathered, sent, e);
    var flags := FlagsOf(gathered, sent, e);
    at := Trues(flags);
    PickedAt(HashesOf(gathered, e), flags);
    forall k: nat | k < |flags| ensures k in at <==> flags[k] {
      TruesIff(flags, k);
    }
  }

  /** Versions and evidence: over any imports, of which any may have been dropped, the source of an item
      has the hash of the latest of its versions that reached the bridge, if and only if that version is
      not empty; and an item of which no version did has no source. `at` are the versions that reached
      it. */
  lemma LatestVersionShown(i: ItemImporter, p: Pass, calls: seq<BridgeCall>, sent: seq<bool>, workspace: string, e: string) returns (at: seq<nat>)
    requires i.Valid() && i.useProvenance && Faithful(i.codec)
    requires |sent| == |i.gathered| && Matched(SentOf(i.gathered, sent), Flat(calls), i.codec)
    requires |i.scope.connector| > 0 && |e| > 0
    requires forall n :: 0 <= n < |calls| ==> calls[n].connector == i.scope.connector && Harmless(calls[n].items, i.codec)
    requires WellFormed(p) && p.leftOver.None? && EvidenceOf(p, i.scope.connector, e).None?
    ensures var vs, flags := i.tracker.Records(i.KeyOf(e)), FlagsOf(i.gathered, sent, e);
            && |flags| == |vs| && (forall m, n :: 0 <= m < n < |at| ==> at[m] < at[n])
            && (forall n :: 0 <= n < |at| ==> at[n] < |vs|) && forall k: nat :: k < |vs| ==> (k in at <==> flags[k])
    ensures var vs, ev := i.tracker.Records(i.KeyOf(e)), EvidenceOf(AfterCalls(p, calls, i.codec, workspace), i.scope.connector, e);
            if at == [] then ev.None?
            else ev.Some? && ev.value.source.hash == vs[at[|at| - 1]].hash <==> vs[at[|at| - 1]].hash != Sha256([])
  {
    hide HashOf, HashesOf, Flat, AfterCalls, EvidenceOf, Harmless, Faithful, IsEmpty, WellFormed, Matched, History, ContentsOf, Latest,
      SameText, SentOf, FlagsOf, ItemImporter.Valid, ItemImporter.InStep;
    var c := i.scope.connector;
    VersionsAreCollected(i, e);
    at := SentHashes(i.gathered, sent, e);
    MatchedHashes(SentOf(i.gathered, sent), Flat(calls), i.codec, e);
    FlatHistory(calls, c, e);
    CallsEvidence(p, calls, i.codec, workspace, c, e);
    LastAndLatest(History(calls, c, e), i.codec);
  }

  lemma VersionsAreCollected(i: ItemImporter, e: string)
    requires i.Valid() && i.useProvenance
    ensures var vs := i.tracker.Records(i.KeyOf(e));
            && |HashesOf(i.gathered, e)| == |vs| && forall k :: 0 <= k < |vs| ==> vs[k].hash == HashesOf(i.gathered, e)[k]
  {
    hide HashesOf, StutterFree, EntryAgrees, RecordingsOf, Chain, ItemImport.Written;
    assert i.InStep(e);
    var vs := i.tracker.Records(i.KeyOf(e));
    assert VersionHashes(vs) == HashesOf(i.gathered, e);
    forall k | 0 <= k < |vs| ensures vs[k].hash == HashesOf(i.gathered, e)[k] {
      assert VersionHashes(vs)[k] == vs[k].hash;
    }
  }

  /** The hash of the last content is that of the latest one that is not empty exactly when the last one
      is not empty itself. */
  lemma LastAndLatest(contents: seq<Content>, codec: Codec)
    requires Faithful(codec)
    ensures contents == [] ==> Latest(contents).None?
    ensures contents != [] ==>
              var hash := HashOf(codec, contents[|contents| - 1]);
              (Latest(contents).Some? && HashOf(codec, Latest(contents).value) == hash) <==> hash != Sha256([])
  {
    hide HashOf, IsEmpty, Faithful;
    LatestIn(contents);
    if contents != [] {
      EmptyHash(codec, contents[|contents| - 1]);
      if Latest(contents).Some? {
        EmptyHash(codec, Latest(contents).value);
      }
    }
  }
}
