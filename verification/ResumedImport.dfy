/** The two fetch functions of an import job (src/decision_system/connectors/import_jobs.py): that of
    `run_import_v3`, which the first leg uses, registers what it fetches; that of `resume_job`, which
    all later legs use, does not. Both run inside the retry loop, so one visit of an item may call them
    several times: again after each exception, as often as the retry policy allows. */
module ResumedImport {
  import opened Prelude
  import opened Contents
  import opened Retry
  import opened Batches
  import opened ImportHistory
  import opened ItemImport
  import opened DataSources
  import opened EvidenceBridge
  import Dedup
  import Provenance

  /** What the remote end does at one call: it raises, or something comes back, or nothing. */
  datatype Reply = Broken | Back(content: Option<Content>)

  /** A visit of the first leg: how many calls it made, whether the last one raised, whether the item then
      counts as imported, and whether its content was collected. */
  datatype Outcome = Outcome(calls: nat, raised: bool, counted: bool, keeps: bool)

  /** The last content that came back in some calls. */
  ghost function LastCame(replies: seq<Reply>): Option<Content> {
    if replies == [] then None
    else
      var r := replies[|replies| - 1];
      if r.Back? && r.content.Some? then r.content else LastCame(replies[..|replies| - 1])
  }

  /** Some content came back in the first `calls` calls. */
  ghost predicate Came(replies: seq<Reply>, calls: nat) {
    calls <= |replies| && LastCame(replies[..calls]).Some?
  }

  /** What the last call brought. */
  ghost function Brought(replies: seq<Reply>, calls: nat): Option<Content> {
    if 0 < calls <= |replies| && replies[calls - 1].Back? then replies[calls - 1].content else None
  }

  /** The table knows the content of the last call already: from an earlier call of the same visit, which
      raised after it had updated the table, or else from before the visit. */
  ghost predicate KnownBefore(codec: Codec, table: map<string, Dedup.Entry>, e: string, replies: seq<Reply>, calls: nat) {
    0 < calls <= |replies| && Brought(replies, calls).Some? &&
    var hash, earlier := HashOf(codec, Brought(replies, calls).value), LastCame(replies[..calls - 1]);
    if earlier.Some? then HashOf(codec, earlier.value) == hash else e in table && table[e].hash == hash
  }

  /** One more call. */
  lemma CallNext(codec: Codec, table0: map<string, Dedup.Entry>, table: map<string, Dedup.Entry>, e: string, replies: seq<Reply>, n: nat)
    requires n < |replies|
    requires if Came(replies, n) then e in table && table[e].hash == HashOf(codec, LastCame(replies[..n]).value) else SameEntry(table0, table, e)
    ensures var fetched := if replies[n].Back? then replies[n].content else None;
            && Brought(replies, n + 1) == fetched
            && (Came(replies, n + 1) <==> fetched.Some? || Came(replies, n))
            && (Came(replies, n + 1) ==> LastCame(replies[..n + 1]) == if fetched.Some? then fetched else LastCame(replies[..n]))
            && (KnownBefore(codec, table0, e, replies, n + 1) <==>
                fetched.Some? && e in table && table[e].hash == HashOf(codec, fetched.value))
  {
    hide HashOf;
    assert replies[..n + 1][..n] == replies[..n];
  }

  // ------------------------------------------------------------------
  // The first leg

  /** The duplicate table of the connector. */
  ghost function TableOf(importer: ItemImporter): map<string, Dedup.Entry>
    reads importer.detector
  {
    importer.detector.Table(importer.scope)
  }

  /** Entries were added, and only for one item. */
  ghost predicate Grows(log: seq<Fetch>, log': seq<Fetch>, id: string) {
    |log| <= |log'| && log'[..|log|] == log && forall k :: |log| <= k < |log'| ==> log'[k].externalId == id
  }

  lemma {:induction false} Elsewhere(log: seq<Fetch>, log': seq<Fetch>, id: string, e: string)
    requires Grows(log, log', id) && e != id
    ensures RecordingsOf(log', e) == RecordingsOf(log, e) && HashesOf(log', e) == HashesOf(log, e)
  {
    if |log'| > |log| {
      var n := |log'| - 1;
      assert log'[..n][..|log|] == log;
      Elsewhere(log, log'[..n], id, e);
      assert log' == log'[..n] + [log'[n]];
      NextOf(log'[..n], log'[n], e);
    } else {
      assert log' == log;
    }
  }

  /** One visit of the first leg: the fetch function is called until it does not raise, or there are no
      more calls. A content that counts as imported has been collected unless the table knew it, and that
      may be from an earlier call of this very visit. */
  method VisitFirst(importer: ItemImporter, item: RuntimeItem, replies: seq<Reply>) returns (counted: bool, ghost o: Outcome)
    requires importer.Valid() && importer.useDedup
    modifies importer, importer.detector, importer.tracker
    ensures importer.Valid()
    ensures o.calls <= |replies| && o.counted == counted
    ensures (o.calls < |replies| ==> !o.raised) && (o.calls == 0 ==> o.raised)
    ensures counted <==> !o.raised && Brought(replies, o.calls).Some? && !IsEmpty(Brought(replies, o.calls).value)
    ensures KnownBefore(importer.codec, old(TableOf(importer)), item.externalId, replies, o.calls) ==> !o.raised
    ensures NeverWritten(importer, item.externalId) && !o.raised && Brought(replies, o.calls).Some? ==>
              KnownBefore(importer.codec, old(TableOf(importer)), item.externalId, replies, o.calls)
    ensures forall e :: e != item.externalId || !Came(replies, o.calls) ==> SameEntry(old(TableOf(importer)), TableOf(importer), e)
    ensures Came(replies, o.calls) ==> item.externalId in TableOf(importer)
    ensures Grows(old(importer.log), importer.log, item.externalId) && Grows(old(importer.gathered), importer.gathered, item.externalId)
    ensures counted ==> (o.keeps <==> !KnownBefore(importer.codec, old(TableOf(importer)), item.externalId, replies, o.calls))
    ensures o.keeps ==> Brought(replies, o.calls).Some?
    ensures importer.collected == if o.keeps then old(importer.collected) + [Brought(replies, o.calls).value] else old(importer.collected)
  {
    hide HashOf, ItemImporter.Valid, IsEmpty, LastCame, Came, KnownBefore, Brought;
    var calls, raised, content := 0, true, None;
    ghost var keeps, id, table0 := false, item.externalId, TableOf(importer);
    NothingCame(replies);
    while calls < |replies| && raised
      invariant importer.Valid() && calls <= |replies|
      invariant forall e :: e != id || !Came(replies, calls) ==> SameEntry(table0, TableOf(importer), e)
      invariant Came(replies, calls) ==> id in TableOf(importer) && LastCame(replies[..calls]).Some?
      invariant Came(replies, calls) ==> TableOf(importer)[id].hash == HashOf(importer.codec, LastCame(replies[..calls]).value)
      invariant Grows(old(importer.log), importer.log, id) && Grows(old(importer.gathered), importer.gathered, id)
      invariant raised ==> content.None? && !keeps && !KnownBefore(importer.codec, table0, id, replies, calls)
      invariant calls == 0 ==> raised
      invariant NeverWritten(importer, id) ==> !keeps
      invariant !raised ==> content == Brought(replies, calls)
      invariant content.Some? ==> (keeps <==> !KnownBefore(importer.codec, table0, id, replies, calls))
      invariant keeps ==> content.Some?
      invariant importer.collected == if keeps then old(importer.collected) + [content.value] else old(importer.collected)
    {
      CameThen(replies, calls);
      CallNext(importer.codec, table0, TableOf(importer), id, replies, calls);
      ghost var collected, table := importer.collected, TableOf(importer);
      match replies[calls] {
        case Broken =>
          raised, content := true, None;
        case Back(fetched) =>
          raised, content := importer.FetchItem(item, fetched);
          keeps := importer.collected != collected;
          CameThen(replies, calls + 1);
          TablesAgree(table0, table, TableOf(importer), id, fetched.None?);
      }
      calls := calls + 1;
    }
    counted := !raised && content.Some? && !IsEmpty(content.value);
    o := Outcome(calls, raised, counted, keeps);
  }

  /** No version of the item can be written. */
  ghost predicate NeverWritten(importer: ItemImporter, e: string) {
    importer.useProvenance && forall n :: !importer.tracker.writes(importer.KeyOf(e), n)
  }

  lemma TablesAgree(a: map<string, Dedup.Entry>, b: map<string, Dedup.Entry>, c: map<string, Dedup.Entry>, id: string, none: bool)
    requires forall e :: e != id || none ==> SameEntry(b, c, e)
    ensures forall e :: e != id && SameEntry(a, b, e) ==> SameEntry(a, c, e)
    ensures none ==> SameEntry(b, c, id) && (SameEntry(a, b, id) ==> SameEntry(a, c, id))
  {
    forall e | e != id && SameEntry(a, b, e) ensures SameEntry(a, c, e) {
      assert SameEntry(b, c, e);
    }
    assert none ==> SameEntry(b, c, id);
  }

  lemma CameThen(replies: seq<Reply>, n: nat)
    ensures Came(replies, n) ==> n <= |replies| && LastCame(replies[..n]).Some?
  {
  }

  lemma NothingCame(replies: seq<Reply>)
    ensures !Came(replies, 0)
    ensures forall codec, table, e :: !KnownBefore(codec, table, e, replies, 0)
  {
    assert replies[..0] == [];
  }

  ghost predicate DistinctItems(items: seq<RuntimeItem>) {
    forall i, j :: 0 <= i < j < |items| ==> items[i].externalId != items[j].externalId
  }

  /** Every item is visited once, and under an id of its own. */
  ghost predicate Once(items: seq<RuntimeItem>, leg: seq<nat>) {
    DistinctItems(items) && NoDuplicates(leg) && forall m :: 0 <= m < |leg| ==> leg[m] < |items|
  }

  /** The visit of an item at position `m` of the leg has these properties. */
  ghost predicate At(items: seq<RuntimeItem>, leg: seq<nat>, outcomes: seq<Outcome>, m: int) {
    0 <= m < |outcomes| && m < |leg| && leg[m] < |items|
  }

  /** Some content of the item came back in one of the visits. */
  ghost predicate CameFor(items: seq<RuntimeItem>, leg: seq<nat>, replies: nat -> seq<Reply>, outcomes: seq<Outcome>, e: string) {
    exists m :: At(items, leg, outcomes, m) && items[leg[m]].externalId == e && Came(replies(m), outcomes[m].calls)
  }

  /** Item `j` of the list counts as imported for one of the visits. */
  ghost predicate CountedAt(leg: seq<nat>, outcomes: seq<Outcome>, j: nat) {
    exists m :: 0 <= m < |outcomes| && m < |leg| && leg[m] == j && outcomes[m].counted
  }

  /** The contents that were collected. */
  ghost function Collected(replies: nat -> seq<Reply>, outcomes: seq<Outcome>): seq<Content> {
    if outcomes == [] then []
    else
      var m := |outcomes| - 1;
      var c := Brought(replies(m), outcomes[m].calls);
      Collected(replies, outcomes[..m]) + if outcomes[m].keeps && c.Some? then [c.value] else []
  }

  /** What is known of each visit: a content that counts as imported is not empty, and it has been
      collected exactly when the table did not know it. */
  ghost predicate Told(codec: Codec, table: map<string, Dedup.Entry>, items: seq<RuntimeItem>, leg: seq<nat>,
                       replies: nat -> seq<Reply>, outcomes: seq<Outcome>)
  {
    forall m :: At(items, leg, outcomes, m) && outcomes[m].counted ==>
      && Brought(replies(m), outcomes[m].calls).Some? && !IsEmpty(Brought(replies(m), outcomes[m].calls).value)
      && Came(replies(m), outcomes[m].calls)
      && (outcomes[m].keeps <==> !KnownBefore(codec, table, items[leg[m]].externalId, replies(m), outcomes[m].calls))
  }

  /** Only the items of which something came back have been registered: `table` is the duplicate table
      now and `table0` before, `log` what has been recorded and `gathered` what has been collected. */
  ghost predicate OnlyThose(table0: map<string, Dedup.Entry>, log0: seq<Fetch>, gathered0: seq<Fetch>,
                            table: map<string, Dedup.Entry>, log: seq<Fetch>, gathered: seq<Fetch>,
                            items: seq<RuntimeItem>, leg: seq<nat>, replies: nat -> seq<Reply>, outcomes: seq<Outcome>)
  {
    && (forall e :: CameFor(items, leg, replies, outcomes, e) ==> e in table)
    && (forall e :: !CameFor(items, leg, replies, outcomes, e) ==> SameEntry(table0, table, e))
    && (forall e :: !VisitedIn(items, leg, outcomes, e) ==> RecordingsOf(log, e) == RecordingsOf(log0, e))
    && (forall e :: !VisitedIn(items, leg, outcomes, e) ==> HashesOf(gathered, e) == HashesOf(gathered0, e))
  }

  ghost predicate VisitedIn(items: seq<RuntimeItem>, leg: seq<nat>, outcomes: seq<Outcome>, e: string) {
    exists m :: At(items, leg, outcomes, m) && items[leg[m]].externalId == e
  }

  /** The visits of the first leg, over any stores. */
  method FirstLeg(importer: ItemImporter, items: seq<RuntimeItem>, leg: seq<nat>, replies: nat -> seq<Reply>)
    returns (imported: seq<nat>, ghost outcomes: seq<Outcome>)
    requires importer.Valid() && importer.useDedup
    requires forall m :: 0 <= m < |leg| ==> leg[m] < |items|
    modifies importer, importer.detector, importer.tracker
    ensures importer.Valid() && |outcomes| == |leg|
    ensures OnlyThose(old(TableOf(importer)), old(importer.log), old(importer.gathered),
                      TableOf(importer), importer.log, importer.gathered, items, leg, replies, outcomes)
    ensures forall j :: j in imported <==> CountedAt(leg, outcomes, j)
    ensures importer.collected == old(importer.collected) + Collected(replies, outcomes)
    ensures Once(items, leg) ==> Told(importer.codec, old(TableOf(importer)), items, leg, replies, outcomes)
  {
    hide HashOf, OnlyThose, ItemImporter.Valid, IsEmpty, CountedAt, Collected, Once, Told, TableOf, Grows, Came, KnownBefore, Brought, SameEntry;
    imported, outcomes := [], [];
    ghost var table0, log0, gathered0 := TableOf(importer), importer.log, importer.gathered;
    NothingVisited(importer.codec, table0, log0, gathered0, items, leg, replies);
    assert importer.collected + [] == importer.collected;
    for n := 0 to |leg|
      invariant importer.Valid() && |outcomes| == n
      invariant OnlyThose(table0, log0, gathered0, TableOf(importer), importer.log, importer.gathered, items, leg, replies, outcomes)
      invariant forall j :: j in imported <==> CountedAt(leg, outcomes, j)
      invariant importer.collected == old(importer.collected) + Collected(replies, outcomes)
      invariant Once(items, leg) ==> Told(importer.codec, table0, items, leg, replies, outcomes)
    {
      ghost var table, log, gathered, before := TableOf(importer), importer.log, importer.gathered, outcomes;
      var counted, o := VisitFirst(importer, items[leg[n]], replies(n));
      NextVisit(table0, log0, gathered0, table, log, gathered, items, leg, replies, before, o, TableOf(importer), importer.log, importer.gathered);
      CountedNext(leg, before, o);
      CollectedNext(replies, before, o);
      ToldNext(importer.codec, table0, log0, gathered0, table, log, gathered, items, leg, replies, before, o);
      if counted {
        imported := imported + [leg[n]];
      }
      outcomes := outcomes + [o];
    }
  }

  lemma NothingVisited(codec: Codec, table: map<string, Dedup.Entry>, log: seq<Fetch>, gathered: seq<Fetch>, items: seq<RuntimeItem>,
                       leg: seq<nat>, replies: nat -> seq<Reply>)
    ensures OnlyThose(table, log, gathered, table, log, gathered, items, leg, replies, [])
    ensures Told(codec, table, items, leg, replies, []) && Collected(replies, []) == []
    ensures forall j :: !CountedAt(leg, [], j)
  {
  }

  lemma CountedNext(leg: seq<nat>, outcomes: seq<Outcome>, o: Outcome)
    requires |outcomes| < |leg|
    ensures forall j :: CountedAt(leg, outcomes + [o], j) <==> CountedAt(leg, outcomes, j) || (o.counted && leg[|outcomes|] == j)
  {
    var all := outcomes + [o];
    forall j ensures CountedAt(leg, all, j) <==> CountedAt(leg, outcomes, j) || (o.counted && leg[|outcomes|] == j) {
      assert all[|outcomes|] == o;
      if CountedAt(leg, outcomes, j) {
        var m :| 0 <= m < |outcomes| && m < |leg| && leg[m] == j && outcomes[m].counted;
        assert all[m] == outcomes[m];
      }
      if CountedAt(leg, all, j) {
        var m :| 0 <= m < |all| && m < |leg| && leg[m] == j && all[m].counted;
        assert m < |outcomes| ==> outcomes[m] == all[m];
      }
    }
  }

  lemma CollectedNext(replies: nat -> seq<Reply>, outcomes: seq<Outcome>, o: Outcome)
    ensures var c := Brought(replies(|outcomes|), o.calls);
            Collected(replies, outcomes + [o]) == Collected(replies, outcomes) + if o.keeps && c.Some? then [c.value] else []
  {
    assert (outcomes + [o])[..|outcomes|] == outcomes;
  }

  lemma CameForNext(items: seq<RuntimeItem>, leg: seq<nat>, replies: nat -> seq<Reply>, outcomes: seq<Outcome>, o: Outcome, e: string)
    requires |outcomes| < |leg| && leg[|outcomes|] < |items|
    ensures CameFor(items, leg, replies, outcomes + [o], e) <==>
            CameFor(items, leg, replies, outcomes, e) || (items[leg[|outcomes|]].externalId == e && Came(replies(|outcomes|), o.calls))
    ensures VisitedIn(items, leg, outcomes + [o], e) <==> VisitedIn(items, leg, outcomes, e) || items[leg[|outcomes|]].externalId == e
  {
    hide Came;
    var all, n := outcomes + [o], |outcomes|;
    assert all[n] == o && At(items, leg, all, n);
    assert forall m :: 0 <= m < n ==> all[m] == outcomes[m];
    assert forall m :: At(items, leg, all, m) <==> At(items, leg, outcomes, m) || m == n;
  }

  lemma NextVisit(table0: map<string, Dedup.Entry>, log0: seq<Fetch>, gathered0: seq<Fetch>,
                  table: map<string, Dedup.Entry>, log: seq<Fetch>, gathered: seq<Fetch>,
                  items: seq<RuntimeItem>, leg: seq<nat>, replies: nat -> seq<Reply>, outcomes: seq<Outcome>, o: Outcome,
                  table': map<string, Dedup.Entry>, log': seq<Fetch>, gathered': seq<Fetch>)
    requires |outcomes| < |leg| && leg[|outcomes|] < |items|
    requires OnlyThose(table0, log0, gathered0, table, log, gathered, items, leg, replies, outcomes)
    requires var id, came := items[leg[|outcomes|]].externalId, Came(replies(|outcomes|), o.calls);
             && (forall e :: e != id || !came ==> SameEntry(table, table', e)) && (came ==> id in table')
             && Grows(log, log', id) && Grows(gathered, gathered', id)
    ensures OnlyThose(table0, log0, gathered0, table', log', gathered', items, leg, replies, outcomes + [o])
  {
    hide RecordingsOf, HashesOf, CameFor, VisitedIn, Came, Grows;
    var id := items[leg[|outcomes|]].externalId;
    forall e ensures CameFor(items, leg, replies, outcomes + [o], e) ==> e in table'
                        ensures !CameFor(items, leg, replies, outcomes + [o], e) ==> SameEntry(table0, table', e)
                        ensures !VisitedIn(items, leg, outcomes + [o], e) ==> RecordingsOf(log', e) == RecordingsOf(log0, e)
                        ensures !VisitedIn(items, leg, outcomes + [o], e) ==> HashesOf(gathered', e) == HashesOf(gathered0, e)
    {
      CameForNext(items, leg, replies, outcomes, o, e);
      if e != id || !Came(replies(|outcomes|), o.calls) {
        assert SameEntry(table, table', e);
      }
      if e != id {
        Elsewhere(log, log', id, e);
        Elsewhere(gathered, gathered', id, e);
      }
    }
  }

  lemma ToldNext(codec: Codec, table0: map<string, Dedup.Entry>, log0: seq<Fetch>, gathered0: seq<Fetch>,
                 table: map<string, Dedup.Entry>, log: seq<Fetch>, gathered: seq<Fetch>,
                 items: seq<RuntimeItem>, leg: seq<nat>, replies: nat -> seq<Reply>, outcomes: seq<Outcome>, o: Outcome)
    requires |outcomes| < |leg| && leg[|outcomes|] < |items|
    requires OnlyThose(table0, log0, gathered0, table, log, gathered, items, leg, replies, outcomes)
    requires Once(items, leg) ==> Told(codec, table0, items, leg, replies, outcomes)
    requires var n, id := |outcomes|, items[leg[|outcomes|]].externalId;
             o.counted ==>
               && Brought(replies(n), o.calls).Some? && !IsEmpty(Brought(replies(n), o.calls).value)
               && (o.keeps <==> !KnownBefore(codec, table, id, replies(n), o.calls))
    ensures Once(items, leg) ==> Told(codec, table0, items, leg, replies, outcomes + [o])
  {
    hide RecordingsOf, HashesOf, IsEmpty, HashOf, LastCame;
    if Once(items, leg) {
      var n, all := |outcomes|, outcomes + [o];
      var id := items[leg[n]].externalId;
      NotYetVisited(items, leg, replies, outcomes);
      assert SameEntry(table0, table, id);
      if o.counted {
        BroughtCame(replies(n), o.calls);
      }
      forall m | At(items, leg, all, m) && all[m].counted
        ensures Brought(replies(m), all[m].calls).Some? && !IsEmpty(Brought(replies(m), all[m].calls).value)
        ensures Came(replies(m), all[m].calls)
        ensures all[m].keeps <==> !KnownBefore(codec, table0, items[leg[m]].externalId, replies(m), all[m].calls)
      {
        if m < n {
          assert all[m] == outcomes[m] && At(items, leg, outcomes, m);
        } else {
          assert all[m] == o;
        }
      }
    }
  }

  lemma BroughtCame(replies: seq<Reply>, calls: nat)
    requires Brought(replies, calls).Some?
    ensures Came(replies, calls)
  {
  }

  lemma NotYetVisited(items: seq<RuntimeItem>, leg: seq<nat>, replies: nat -> seq<Reply>, outcomes: seq<Outcome>)
    requires Once(items, leg) && |outcomes| < |leg|
    ensures !CameFor(items, leg, replies, outcomes, items[leg[|outcomes|]].externalId)
  {
    forall m | At(items, leg, outcomes, m) ensures items[leg[m]].externalId != items[leg[|outcomes|]].externalId {
      assert leg[m] != leg[|outcomes|];
    }
  }

  /** The rest of `run_import_v3`: what was collected goes to the evidence bridge, unless the loop over the
      batches ended with an exception; then it is dropped. */
  method BridgeCollected(importer: ItemImporter, store: DataSourceStore, failed: bool)
    requires store.Valid()
    modifies store
    ensures store.Valid()
    ensures Pass(store.Sources(), store.dirs, store.nextSource, None)
         == Sent(Pass(old(store.Sources()), old(store.dirs), old(store.nextSource), None),
                 if failed then [] else importer.collected, importer.codec, importer.scope.connector, store.workspaceId)
  {
    hide PersistOne, Listing;
    if !failed && |importer.collected| > 0 {
      var saved := PersistConnectorContent(store, importer.collected, importer.codec, importer.scope.connector);
    }
  }

  /** What a call of the bridge leaves. */
  ghost function Sent(p: Pass, items: seq<Content>, codec: Codec, connector: string, workspace: string): Pass {
    var q := PersistAll(p, items, codec, connector, workspace);
    Pass(q.sources, q.dirs, q.next, None)
  }

  lemma NothingSent(p: Pass, codec: Codec, connector: string, workspace: string)
    requires p.leftOver.None?
    ensures Sent(p, [], codec, connector, workspace) == p
  {
  }

  // ------------------------------------------------------------------
  // The resumed legs

  /** The fetch function of a resumed leg. */
  method FetchOnResume(item: RuntimeItem, reply: Reply) returns (raised: bool, content: Option<Content>)
    ensures raised <==> reply.Broken?
    ensures content == if reply.Broken? then None else reply.content
  {
    raised := reply.Broken?;
    content := if reply.Broken? then None else reply.content;
  }

  /** The first call that does not raise decides. */
  function ResumedCounts(replies: seq<Reply>): bool {
    if replies == [] then false
    else if replies[0].Broken? then ResumedCounts(replies[1..])
    else replies[0].content.Some? && !IsEmpty(replies[0].content.value)
  }

  /** In other words: some call brought content that is not empty, and all calls before it raised. */
  lemma {:induction false} ResumedCountsIff(replies: seq<Reply>)
    ensures ResumedCounts(replies) <==> exists n :: FirstBack(replies, n) && replies[n].content.Some? && !IsEmpty(replies[n].content.value)
  {
    hide IsEmpty;
    if replies != [] {
      var rest := replies[1..];
      ResumedCountsIff(rest);
      forall n | FirstBack(rest, n) && replies[0].Broken? ensures FirstBack(replies, n + 1) && replies[n + 1] == rest[n] {
      }
      forall n | FirstBack(replies, n) && replies[0].Broken? ensures FirstBack(rest, n - 1) && replies[n] == rest[n - 1] {
      }
      assert FirstBack(replies, 0) <==> replies[0].Back?;
    }
  }

  /** Call `n` is the first that did not raise. */
  ghost predicate FirstBack(replies: seq<Reply>, n: int) {
    0 <= n < |replies| && replies[n].Back? && forall k :: 0 <= k < n ==> replies[k].Broken?
  }

  method VisitResumed(item: RuntimeItem, replies: seq<Reply>) returns (counted: bool)
    ensures counted == ResumedCounts(replies)
  {
    hide IsEmpty;
    for n := 0 to |replies|
      invariant ResumedCounts(replies) == ResumedCounts(replies[n..])
    {
      var raised, content := FetchOnResume(item, replies[n]);
      if !raised {
        return content.Some? && !IsEmpty(content.value);
      }
    }
    counted := false;
  }

  /** Item `j` of the list counts as imported for one of the first `n` visits of a resumed leg. */
  ghost predicate ResumedAt(leg: seq<nat>, n: nat, replies: nat -> seq<Reply>, j: nat)
    requires n <= |leg|
  {
    exists m :: 0 <= m < n && leg[m] == j && ResumedCounts(replies(m))
  }

  method ResumedLeg(items: seq<RuntimeItem>, leg: seq<nat>, replies: nat -> seq<Reply>) returns (imported: seq<nat>)
    requires forall m :: 0 <= m < |leg| ==> leg[m] < |items|
    ensures forall j :: j in imported <==> ResumedAt(leg, |leg|, replies, j)
  {
    hide ResumedCounts;
    imported := [];
    for n := 0 to |leg|
      invariant forall j :: j in imported <==> ResumedAt(leg, n, replies, j)
    {
      var counted := VisitResumed(items[leg[n]], replies(n));
      if counted {
        imported := imported + [leg[n]];
      }
    }
  }

  /** In a completed job that lost no item, each leg fetches one stretch of the list. */
  lemma StretchOf(p: RetryPolicy, items: seq<RuntimeItem>, legs: seq<LegRecord>, b: nat, i: nat)
    requires CompletedHistory(p, items, legs, b) && LosesNothing(legs, |legs|, |items|) && i < |legs|
    ensures var from := Offset(legs[i].before);
            var to := if i + 1 < |legs| then Offset(legs[i + 1].before) else |items|;
            from <= to <= |items| && Indices(legs[i].Start(), legs[i].visits) == Range(from, to)
  {
    hide IsLeg, ResumeStart, Indices, Range;
    var from := Offset(legs[i].before);
    var to := if i + 1 < |legs| then Offset(legs[i + 1].before) else |items|;
    ProcessedBound(p, items, legs, i);
    FetchedPrefix(p, items, legs, b, i);
    if i + 1 < |legs| {
      ProcessedBound(p, items, legs, i + 1);
      FetchedPrefix(p, items, legs, b, i + 1);
    } else {
      LosslessHistory(p, items, legs, b);
      assert legs[..i + 1] == legs;
    }
    assert legs[..i + 1][..i] == legs[..i];
    TailOfRange(from, to, Indices(legs[i].Start(), legs[i].visits));
  }

  lemma TailOfRange(from: nat, to: nat, own: seq<nat>)
    requires Range(0, to) == Range(0, from) + own
    ensures from <= to && own == Range(from, to)
  {
    assert |Range(0, to)| == from + |own|;
    forall k | 0 <= k < |own| ensures own[k] == from + k {
      assert (Range(0, from) + own)[from + k] == own[k];
    }
  }

  lemma {:induction false} OffsetsGrow(p: RetryPolicy, items: seq<RuntimeItem>, legs: seq<LegRecord>, i: nat, k: nat)
    requires History(p, items, legs) && i <= k < |legs|
    ensures Offset(legs[i].before) <= Offset(legs[k].before)
  {
    hide IsLeg;
    if i < k {
      OffsetsGrow(p, items, legs, i, k - 1);
      ProcessedBound(p, items, legs, k - 1);
    }
  }

  // ------------------------------------------------------------------
  // A whole job

  /** Item `j` of the list was collected in the first leg. */
  ghost predicate KeptAt(leg: seq<nat>, outcomes: seq<Outcome>, j: nat) {
    exists m :: 0 <= m < |outcomes| && m < |leg| && leg[m] == j && outcomes[m].keeps
  }

  /** When item `j` was visited, its content was new: the table did not know it, neither from before the
      job nor from an earlier call of the visit. */
  ghost predicate NewAt(codec: Codec, table: map<string, Dedup.Entry>, items: seq<RuntimeItem>, leg: seq<nat>,
                        replies: nat -> seq<Reply>, outcomes: seq<Outcome>, j: nat)
  {
    exists m :: At(items, leg, outcomes, m) && leg[m] == j
                && !KnownBefore(codec, table, items[j].externalId, replies(m), outcomes[m].calls)
  }

  /** In a completed job that lost no item, take an item that counts as imported. Unless it was there
      before, it is in the duplicate table if and only if the first leg fetched it, and these are just the
      items before the checkpoint that the first resumed leg starts from. And its content has been
      collected if and only if the first leg fetched it and the table did not know it by then: a content
      whose version could not be written raises, and when the call is repeated it comes back as
      unchanged. */
  lemma RegisteredIff(p: RetryPolicy, items: seq<RuntimeItem>, legs: seq<LegRecord>, b: nat, codec: Codec,
                      table0: map<string, Dedup.Entry>, log0: seq<Fetch>, gathered0: seq<Fetch>,
                      table: map<string, Dedup.Entry>, log: seq<Fetch>, gathered: seq<Fetch>,
                      replies: nat -> seq<Reply>, outcomes: seq<Outcome>, i: nat, j: nat)
    requires CompletedHistory(p, items, legs, b) && LosesNothing(legs, |legs|, |items|) && DistinctItems(items)
    requires i < |legs| && j in Indices(legs[i].Start(), legs[i].visits)
    requires var first := Indices(legs[0].Start(), legs[0].visits);
             && OnlyThose(table0, log0, gathered0, table, log, gathered, items, first, replies, outcomes)
             && |outcomes| == |first| && (Once(items, first) ==> Told(codec, table0, items, first, replies, outcomes))
             && (i == 0 ==> CountedAt(first, outcomes, j))
    ensures j < |items|
    ensures items[j].externalId !in table0 ==> (items[j].externalId in table <==> i == 0)
    ensures i == 0 <==> |legs| == 1 || j < Offset(legs[1].before)
    ensures var first := Indices(legs[0].Start(), legs[0].visits);
            KeptAt(first, outcomes, j) <==> i == 0 && NewAt(codec, table0, items, first, replies, outcomes, j)
  {
    hide CompletedHistory, LosesNothing, Indices, ResumeStart, OnlyThose, Told, CountedAt, KeptAt, NewAt, CameFor, SameEntry;
    StretchOf(p, items, legs, b, i);
    StretchOf(p, items, legs, b, 0);
    Begins(p, items, legs, b);
    var first := Indices(legs[0].Start(), legs[0].visits);
    assert Once(items, first);
    if i > 0 {
      OffsetsGrow(p, items, legs, 1, i);
      assert j !in first;
      NotFor(items, first, replies, outcomes, j);
      StaysOut(table0, log0, gathered0, table, log, gathered, items, first, replies, outcomes, j);
    } else {
      FirstCounts(codec, table0, log0, gathered0, table, log, gathered, items, first, replies, outcomes, j);
    }
  }

  lemma StaysOut(table0: map<string, Dedup.Entry>, log0: seq<Fetch>, gathered0: seq<Fetch>,
                 table: map<string, Dedup.Entry>, log: seq<Fetch>, gathered: seq<Fetch>,
                 items: seq<RuntimeItem>, leg: seq<nat>, replies: nat -> seq<Reply>, outcomes: seq<Outcome>, j: nat)
    requires OnlyThose(table0, log0, gathered0, table, log, gathered, items, leg, replies, outcomes)
    requires j < |items| && j !in leg && !CameFor(items, leg, replies, outcomes, items[j].externalId)
    ensures items[j].externalId !in table0 ==> items[j].externalId !in table
    ensures !KeptAt(leg, outcomes, j)
  {
    hide CameFor, RecordingsOf, HashesOf, VisitedIn;
    assert SameEntry(table0, table, items[j].externalId);
  }

  /** An item that counts as imported in the first leg is registered, and collected exactly when it is
      new. */
  lemma FirstCounts(codec: Codec, table0: map<string, Dedup.Entry>, log0: seq<Fetch>, gathered0: seq<Fetch>,
                    table: map<string, Dedup.Entry>, log: seq<Fetch>, gathered: seq<Fetch>,
                    items: seq<RuntimeItem>, leg: seq<nat>, replies: nat -> seq<Reply>, outcomes: seq<Outcome>, j: nat)
    requires OnlyThose(table0, log0, gathered0, table, log, gathered, items, leg, replies, outcomes)
    requires Once(items, leg) && |outcomes| == |leg| && Told(codec, table0, items, leg, replies, outcomes)
    requires j < |items| && CountedAt(leg, outcomes, j)
    ensures items[j].externalId in table
    ensures KeptAt(leg, outcomes, j) <==> NewAt(codec, table0, items, leg, replies, outcomes, j)
  {
    hide IsEmpty, KnownBefore, Brought, Came, RecordingsOf, HashesOf, SameEntry, VisitedIn;
    var m :| 0 <= m < |outcomes| && m < |leg| && leg[m] == j && outcomes[m].counted;
    assert At(items, leg, outcomes, m);
    assert CameFor(items, leg, replies, outcomes, items[j].externalId);
    assert forall k :: 0 <= k < |leg| && leg[k] == j ==> k == m;
  }

  lemma NotFor(items: seq<RuntimeItem>, leg: seq<nat>, replies: nat -> seq<Reply>, outcomes: seq<Outcome>, j: nat)
    requires DistinctItems(items) && j < |items| && j !in leg
    ensures !CameFor(items, leg, replies, outcomes, items[j].externalId)
  {
    forall m | At(items, leg, outcomes, m) ensures items[leg[m]].externalId != items[j].externalId {
      assert leg[m] in leg;
    }
  }

  lemma Begins(p: RetryPolicy, items: seq<RuntimeItem>, legs: seq<LegRecord>, b: nat)
    requires CompletedHistory(p, items, legs, b)
    ensures History(p, items, legs) && legs[0].before == None
  {
  }

  /** Item `j` of the list reaches the evidence bridge: it was collected, and the leg did not fail, which
      would drop all that was collected. */
  ghost predicate Bridged(failed: bool, leg: seq<nat>, outcomes: seq<Outcome>, j: nat) {
    !failed && KeptAt(leg, outcomes, j)
  }

  /** What becomes of item `j`, which counts as imported for leg `i`. Unless it was there before, it is in
      the duplicate table if and only if `i` is the first leg, that is, if it lies before the checkpoint of
      the first resumed leg; and it reaches the evidence bridge if and only if, besides, the first leg did
      not fail and its content was new when it last came. */
  ghost predicate RightFor(items: seq<RuntimeItem>, legs: seq<LegRecord>, codec: Codec, table0: map<string, Dedup.Entry>,
                           table: map<string, Dedup.Entry>, first: seq<nat>, replies: nat -> seq<Reply>, outcomes: seq<Outcome>,
                           failed: bool, i: nat, j: nat)
  {
    && j < |items|
    && (items[j].externalId !in table0 ==> (items[j].externalId in table <==> i == 0))
    && (i == 0 <==> |legs| == 1 || (|legs| > 1 && j < Offset(legs[1].before)))
    && (Bridged(failed, first, outcomes, j) <==> i == 0 && !failed && NewAt(codec, table0, items, first, replies, outcomes, j))
  }

  /** A whole job: the first leg, the evidence bridge unless the leg failed, and the resumed legs. */
  method ImportJob(importer: ItemImporter, store: DataSourceStore, items: seq<RuntimeItem>, lists: seq<seq<nat>>,
                   replies: seq<nat -> seq<Reply>>, failed: bool, ghost p: RetryPolicy, ghost legs: seq<LegRecord>, ghost b: nat)
    returns (imported: seq<seq<nat>>, ghost outcomes: seq<Outcome>)
    requires importer.Valid() && importer.useDedup && importer.collected == [] && store.Valid()
    requires CompletedHistory(p, items, legs, b) && LosesNothing(legs, |legs|, |items|) && DistinctItems(items)
    requires |lists| == |replies| == |legs| && (failed <==> legs[0].status == Failed)
    requires forall i :: 0 <= i < |legs| ==> lists[i] == Indices(legs[i].Start(), legs[i].visits)
    modifies importer, importer.detector, importer.tracker, store
    ensures importer.Valid() && store.Valid() && |imported| == |legs|
    ensures Pass(store.Sources(), store.dirs, store.nextSource, None)
         == Sent(Pass(old(store.Sources()), old(store.dirs), old(store.nextSource), None),
                 if failed then [] else Collected(replies[0], outcomes), importer.codec, importer.scope.connector, store.workspaceId)
    ensures |outcomes| == |lists[0]| && forall j :: j in imported[0] <==> CountedAt(lists[0], outcomes, j)
    ensures forall i, j :: 1 <= i < |legs| ==> (j in imported[i] <==> ResumedAt(lists[i], |lists[i]|, replies[i], j))
    ensures forall i, j :: 0 <= i < |legs| && j in imported[i] ==>
              RightFor(items, legs, importer.codec, old(TableOf(importer)), TableOf(importer), lists[0], replies[0], outcomes, failed, i, j)
  {
    hide HashOf, OnlyThose, ItemImporter.Valid, DataSourceStore.Valid, IsEmpty, CountedAt, Once, Came, CameFor, Brought, KnownBefore, SameEntry,
      Told, TableOf, NewAt, KeptAt, Sent, Collected, CompletedHistory, LosesNothing, DistinctItems, Indices, Listing, ResumedAt, RightFor;
    ghost var table0, log0, gathered0 := TableOf(importer), importer.log, importer.gathered;
    ListsFit(p, items, legs, b, lists);
    var first;
    first, outcomes := FirstLeg(importer, items, lists[0], replies[0]);
    assert [] + Collected(replies[0], outcomes) == Collected(replies[0], outcomes);
    BridgeCollected(importer, store, failed);
    ghost var table, log, gathered := TableOf(importer), importer.log, importer.gathered;
    imported := RestOfJob(items, lists, replies, first);
    forall k, j | 1 <= k < |lists| && j in imported[k] ensures j in lists[k] {
      ResumedIsIn(lists[k], replies[k], j);
    }
    AllRight(p, items, legs, b, importer.codec, table0, log0, gathered0, table, log, gathered, lists, replies[0], outcomes, failed, imported);
  }

  method RestOfJob(items: seq<RuntimeItem>, lists: seq<seq<nat>>, replies: seq<nat -> seq<Reply>>, first: seq<nat>) returns (imported: seq<seq<nat>>)
    requires 0 < |lists| == |replies|
    requires forall i, m :: 0 <= i < |lists| && 0 <= m < |lists[i]| ==> lists[i][m] < |items|
    ensures |imported| == |lists| && imported[0] == first
    ensures forall k, j :: 1 <= k < |lists| ==> (j in imported[k] <==> ResumedAt(lists[k], |lists[k]|, replies[k], j))
  {
    hide ResumedAt;
    imported := [first];
    for i := 1 to |lists|
      invariant |imported| == i && imported[0] == first
      invariant forall k, j :: 1 <= k < i ==> (j in imported[k] <==> ResumedAt(lists[k], |lists[k]|, replies[k], j))
    {
      var leg := ResumedLeg(items, lists[i], replies[i]);
      imported := imported + [leg];
    }
  }

  lemma AllRight(p: RetryPolicy, items: seq<RuntimeItem>, legs: seq<LegRecord>, b: nat, codec: Codec,
                 table0: map<string, Dedup.Entry>, log0: seq<Fetch>, gathered0: seq<Fetch>,
                 table: map<string, Dedup.Entry>, log: seq<Fetch>, gathered: seq<Fetch>,
                 lists: seq<seq<nat>>, replies: nat -> seq<Reply>, outcomes: seq<Outcome>, failed: bool, imported: seq<seq<nat>>)
    requires CompletedHistory(p, items, legs, b) && LosesNothing(legs, |legs|, |items|) && DistinctItems(items)
    requires 0 < |lists| == |legs| == |imported| && forall i :: 0 <= i < |legs| ==> lists[i] == Indices(legs[i].Start(), legs[i].visits)
    requires OnlyThose(table0, log0, gathered0, table, log, gathered, items, lists[0], replies, outcomes)
    requires |outcomes| == |lists[0]| && (Once(items, lists[0]) ==> Told(codec, table0, items, lists[0], replies, outcomes))
    requires forall j :: j in imported[0] <==> CountedAt(lists[0], outcomes, j)
    requires forall k, j :: 1 <= k < |lists| && j in imported[k] ==> j in lists[k]
    ensures forall i, j :: 0 <= i < |legs| && j in imported[i] ==>
              RightFor(items, legs, codec, table0, table, lists[0], replies, outcomes, failed, i, j)
  {
    hide OnlyThose, CountedAt, Once, CameFor, SameEntry, Told, NewAt, KeptAt, CompletedHistory, LosesNothing, DistinctItems, Indices;
    forall i, j | 0 <= i < |legs| && j in imported[i]
      ensures RightFor(items, legs, codec, table0, table, lists[0], replies, outcomes, failed, i, j)
    {
      if i == 0 {
        CountedIsIn(lists[0], outcomes, j);
      }
      assert j in lists[i];
      RegisteredIff(p, items, legs, b, codec, table0, log0, gathered0, table, log, gathered, replies, outcomes, i, j);
    }
  }

  lemma ResumedIsIn(leg: seq<nat>, replies: nat -> seq<Reply>, j: nat)
    requires ResumedAt(leg, |leg|, replies, j)
    ensures j in leg
  {
  }

  lemma CountedIsIn(leg: seq<nat>, outcomes: seq<Outcome>, j: nat)
    requires CountedAt(leg, outcomes, j)
    ensures j in leg
  {
  }

  lemma ListsFit(p: RetryPolicy, items: seq<RuntimeItem>, legs: seq<LegRecord>, b: nat, lists: seq<seq<nat>>)
    requires CompletedHistory(p, items, legs, b) && LosesNothing(legs, |legs|, |items|) && |lists| == |legs|
    requires forall i :: 0 <= i < |legs| ==> lists[i] == Indices(legs[i].Start(), legs[i].visits)
    ensures |legs| > 0
    ensures forall i, m :: 0 <= i < |lists| && 0 <= m < |lists[i]| ==> lists[i][m] < |items|
  {
    hide Indices, CompletedHistory, LosesNothing;
    Begins(p, items, legs, b);
    forall i, m | 0 <= i < |lists| && 0 <= m < |lists[i]| ensures lists[i][m] < |items| {
      StretchOf(p, items, legs, b, i);
    }
  }

  // ------------------------------------------------------------------
  // Examples

  /** Of two items the first leg fetched one and a resumed leg the other; both count as imported, but only
      the first is registered and collected. */
  method ResumedExample(scope: Scope, codec: Codec, x: RuntimeItem, y: RuntimeItem, content: Content)
    returns (importer: ItemImporter, first: bool, second: bool)
    requires x.externalId != y.externalId && !IsEmpty(content)
    ensures first && second
    ensures importer.Valid() && x.externalId in TableOf(importer) && y.externalId !in TableOf(importer)
    ensures importer.collected == [content]
  {
    hide IsEmpty, HashOf, ItemImporter.Valid;
    var detector := new Dedup.DuplicateDetector();
    var tracker := new Provenance.ProvenanceTracker((key: Provenance.Key, n: nat) => true);
    importer := new ItemImporter(scope, "job", codec, true, true, detector, tracker);
    var raised, fetched := importer.FetchItem(x, Some(content));
    first := !raised && fetched.Some? && !IsEmpty(fetched.value);
    assert SameEntry(map[], TableOf(importer), y.externalId);
    second := VisitResumed(y, [Back(Some(content))]);
  }

  /** A first leg that ends failed: its item is registered, but what was collected is dropped, so the
      evidence store stays empty; and when the same content is imported again it counts as imported,
      but being unchanged it is not collected, so the evidence store stays empty for good. */
  method DroppedExample(scope: Scope, codec: Codec, x: RuntimeItem, content: Content, workspace: string)
    returns (importer: ItemImporter, store: DataSourceStore, counted: bool)
    requires !IsEmpty(content)
    ensures importer.Valid() && x.externalId in TableOf(importer) && counted
    ensures store.Valid() && store.Sources() == []
  {
    hide IsEmpty, HashOf, ItemImporter.Valid, PersistAll, Listing, Sent;
    NothingSent(Pass([], map[], 0, None), codec, scope.connector, workspace);
    var detector := new Dedup.DuplicateDetector();
    var tracker := new Provenance.ProvenanceTracker((key: Provenance.Key, n: nat) => true);
    var first := new ItemImporter(scope, "first", codec, true, true, detector, tracker);
    store := new DataSourceStore(workspace);
    var raised, fetched := first.FetchItem(x, Some(content));
    BridgeCollected(first, store, true);
    importer := new ItemImporter.Again(first, "second");
    raised, fetched := importer.FetchItem(x, Some(content));
    counted := fetched.Some? && !IsEmpty(fetched.value);
    assert importer.collected == [];
    BridgeCollected(importer, store, false);
  }

  /** An item whose version cannot be written, here because its id names a directory that is not there,
      in a leg that does not fail: the first call raises after it has updated the table; the error is
      retried, as one that contains the digits 500 is; and the second call returns the content as
      unchanged. The item counts as imported and is registered, but its content is not collected, and
      the evidence store stays empty. */
  method RetriedExample(scope: Scope, codec: Codec, x: RuntimeItem, content: Content, workspace: string)
    returns (importer: ItemImporter, store: DataSourceStore, counted: bool, ghost o: Outcome)
    requires '/' in x.externalId && !IsEmpty(content)
    ensures counted && o.calls == 2 && !o.keeps
    ensures importer.Valid() && x.externalId in TableOf(importer)
    ensures store.Valid() && store.Sources() == []
  {
    hide IsEmpty, HashOf, ItemImporter.Valid, PersistAll, Listing, Sent;
    NothingSent(Pass([], map[], 0, None), codec, scope.connector, workspace);
    var detector := new Dedup.DuplicateDetector();
    var tracker := new Provenance.ProvenanceTracker((key: Provenance.Key, n: nat) => '/' !in key.externalId);
    importer := new ItemImporter(scope, "job", codec, true, true, detector, tracker);
    store := new DataSourceStore(workspace);
    var reply := Back(Some(content));
    counted, o := VisitFirst(importer, x, [reply, reply]);
    SameTwice(codec, x.externalId, reply);
    assert importer.collected == [];
    BridgeCollected(importer, store, false);
  }

  /** When the same content comes twice the table knows it the second time only. */
  lemma SameTwice(codec: Codec, e: string, reply: Reply)
    requires reply.Back? && reply.content.Some?
    ensures Brought([reply, reply], 1).Some? && !KnownBefore(codec, map[], e, [reply, reply], 1)
    ensures Brought([reply, reply], 2) == reply.content && KnownBefore(codec, map[], e, [reply, reply], 2)
  {
    hide HashOf;
    assert [reply, reply][..1] == [reply] && [reply, reply][..0] == [];
  }
}
