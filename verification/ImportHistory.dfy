/** Whole histories of an import job: a first leg and any number of resumed legs, each ended by
    a cancellation, a failure or the end of the list
    (src/decision_system/connectors/batch_processor.py, `process_items` and `resume_job`). */
module ImportHistory {
  import opened Prelude
  import opened Retry
  import opened Batches
  import opened RateLimits

  ghost predicate IsResumable(status: Status) {
    status in {Failed, Paused, Cancelled}
  }

  ghost predicate IsFinished(status: Status) {
    status in {Completed, CompletedWithWarnings}
  }

  /** The legs of one job over one item list: the first starts without a checkpoint, every other
      one from the checkpoint of a leg that could be resumed. */
  ghost predicate History(p: RetryPolicy, items: seq<RuntimeItem>, legs: seq<LegRecord>) {
    && legs != []
    && legs[0].before == None
    && (forall i :: 0 <= i < |legs| ==> IsLeg(p, items, legs[i]))
    && (forall i :: 0 <= i < |legs| - 1 ==>
          IsResumable(legs[i].status) && legs[i + 1].before == legs[i].after.checkpoint)
  }

  ghost predicate UniformBatches(legs: seq<LegRecord>, b: nat) {
    b > 0 && forall i :: 0 <= i < |legs| ==> legs[i].b == b
  }

  ghost predicate CompletedHistory(p: RetryPolicy, items: seq<RuntimeItem>, legs: seq<LegRecord>, b: nat) {
    History(p, items, legs) && UniformBatches(legs, b) && IsFinished(legs[|legs| - 1].status)
  }

  /** What a resumed leg adds to a history. */
  lemma HistoryExtends(p: RetryPolicy, items: seq<RuntimeItem>, legs: seq<LegRecord>, leg: LegRecord)
    requires History(p, items, legs) && IsResumable(legs[|legs| - 1].status)
    requires IsLeg(p, items, leg) && leg.before == legs[|legs| - 1].after.checkpoint
    ensures History(p, items, legs + [leg])
  {
    hide IsLeg;
  }

  /** A job driven through any number of resumes, each with a batch size of its own: its legs are a
      history. It always ends in a state from which it can be resumed, or finished; and if nobody disturbs
      it, one resume with a batch size other than zero finishes it. */
  method RunJob(processor: BatchProcessor, job: Job, items: seq<RuntimeItem>, sizes: seq<int>) returns (ghost legs: seq<LegRecord>)
    requires processor.Valid() && job.checkpoint == None
    modifies processor, job, processor.limiter, processor.remote
    ensures processor.Valid()
    ensures History(processor.policy, items, legs)
    ensures processor.Traced(job.connectorId, old(processor.journal), old(processor.remote.calls), VisitsIn(legs))
    ensures job.Snapshot() == legs[|legs| - 1].after && job.status == legs[|legs| - 1].status
    ensures |legs| == |sizes| + 1 || !IsResumable(job.status)
    ensures IsResumable(job.status) || IsFinished(job.status)
    ensures sizes != [] && sizes[|sizes| - 1] != 0 && Undisturbed(processor.remote) ==> IsFinished(job.status)
  {
    hide IsLeg, BatchProcessor.Valid, VisitsIn, Entries, CallsOf, Arrived, Undisturbed;
    var leg := processor.RunLeg(job, items);
    legs := [leg];
    VisitsInOne(leg);
    for n := 0 to |sizes|
      invariant processor.Valid() && History(processor.policy, items, legs) && |legs| == n + 1
      invariant processor.Traced(job.connectorId, old(processor.journal), old(processor.remote.calls), VisitsIn(legs))
      invariant job.Snapshot() == legs[n].after && job.status == legs[n].status
      invariant IsResumable(job.status) || IsFinished(job.status)
      invariant n > 0 && sizes[n - 1] != 0 && Undisturbed(processor.remote) ==> IsFinished(job.status)
    {
      processor.batchSize := sizes[n];
      var resumed;
      ghost var journal, calls := processor.journal, processor.remote.calls;
      resumed, leg := processor.ResumeJob(job, items);
      if !resumed {
        return;
      }
      HistoryExtends(processor.policy, items, legs, leg);
      processor.TracedStep(job.connectorId, old(processor.journal), old(processor.remote.calls), VisitsIn(legs), leg.visits, journal, calls);
      VisitsInNext(legs, leg);
      legs := legs + [leg];
      if Undisturbed(processor.remote) {
        NobodyAsks(processor.remote);
      }
    }
  }

  /** Nobody asks for a cancellation, and the progress callback does not raise. */
  ghost predicate Undisturbed(remote: Remote) {
    forall n :: !remote.cancels(n) && !remote.callbackRaises(n)
  }

  lemma NobodyAsks(remote: Remote)
    requires Undisturbed(remote)
    ensures forall n :: !remote.cancels(n) && !remote.callbackRaises(n)
  {
  }

  /** The visits of all legs, in order. */
  ghost function VisitsIn(legs: seq<LegRecord>): seq<Visit> {
    if legs == [] then [] else VisitsIn(legs[..|legs| - 1]) + legs[|legs| - 1].visits
  }

  lemma VisitsInNext(legs: seq<LegRecord>, leg: LegRecord)
    ensures VisitsIn(legs + [leg]) == VisitsIn(legs) + leg.visits
  {
    assert (legs + [leg])[..|legs|] == legs;
  }

  lemma VisitsInOne(leg: LegRecord)
    ensures VisitsIn([leg]) == leg.visits
  {
    VisitsInNext([], leg);
    assert [] + [leg] == [leg] && [] + leg.visits == leg.visits;
  }

  // ------------------------------------------------------------------
  // The checkpoint

  /** Per leg: imported, skipped and failed items make up the processed ones; together with the
      held ones they make up the visited ones. Each counter is the number of visits that ended in that
      way; the rate-limited items are those that were held back or ended with a rate-limit error. */
  lemma LegConservation(p: RetryPolicy, items: seq<RuntimeItem>, leg: LegRecord)
    requires IsLeg(p, items, leg)
    ensures CountersTell(leg.after, Offset(leg.before), leg.visits)
    ensures var c := leg.after;
            && c.processed - Offset(leg.before) == c.imported + c.skipped + c.failed
            && |leg.visits| == c.imported + c.skipped + c.failed + Count(leg.visits, Holding)
            && c.rateLimited == Count(leg.visits, Holding) + Count(leg.visits, Limiting)
    ensures IsFinished(leg.status) ==> (leg.status == CompletedWithWarnings <==> leg.after.failed > 0)
  {
    hide CountersTell, Count, ResumeStart, Through;
    CountTotal(leg.visits);
    CountersTellAll(p, |items|, Offset(leg.before), leg.visits, leg.after);
  }

  /** The processed count never exceeds the list, whatever batch sizes the legs use. */
  lemma {:induction false} ProcessedBound(p: RetryPolicy, items: seq<RuntimeItem>, legs: seq<LegRecord>, i: nat)
    requires History(p, items, legs) && i < |legs|
    ensures Offset(legs[i].before) <= |items|
    ensures legs[i].after.processed <= |items| && Offset(legs[i].after.checkpoint) == legs[i].after.processed
    ensures i + 1 < |legs| ==> Offset(legs[i].before) <= Offset(legs[i + 1].before)
  {
    hide VisitsOf, Count, ResumeStart, BatchEnd;
    if i > 0 {
      ProcessedBound(p, items, legs, i - 1);
    }
    var leg := legs[i];
    assert IsLeg(p, items, leg);
    CountTotal(leg.visits);
    if leg.visits == [] {
      NothingCounted();
    } else {
      StartAtLeast(Offset(leg.before), leg.b);
    }
  }

  lemma NothingCounted()
    ensures forall kind :: Count([], kind) == 0
  {
  }

  lemma StartAtLeast(offset: nat, b: int)
    ensures offset <= ResumeStart(offset, b)
  {
    if b > 0 {
      LeastBatchStart(offset, b, 0);
    }
  }

  /** The percentage never exceeds 100. */
  lemma PercentBound(p: RetryPolicy, items: seq<RuntimeItem>, legs: seq<LegRecord>, i: nat)
    requires History(p, items, legs) && i < |legs|
    ensures 0.0 <= legs[i].after.PercentComplete() <= 100.0
  {
    hide VisitsOf, Count, ResumeStart, BatchEnd, Counters.PercentComplete;
    ProcessedBound(p, items, legs, i);
    assert IsLeg(p, items, legs[i]);
    PercentOf(legs[i].after);
  }

  /** The percentage is 0 at the start and 100 exactly when everything has been processed, and it is
      proportional to what has been processed. */
  lemma PercentTells(c: Counters)
    ensures c.total == 0 ==> c.PercentComplete() == 100.0 * c.processed as real
    ensures c.total > 0 ==> c.PercentComplete() * c.total as real == 100.0 * c.processed as real
    ensures c.total > 0 ==> (c.PercentComplete() == 100.0 <==> c.processed == c.total)
    ensures c.PercentComplete() == 0.0 <==> c.processed == 0
  {
    var p, t := c.processed as real, if c.total == 0 then 1.0 else c.total as real;
    assert p / t * t == p;
    DivideOut(c.PercentComplete(), 100.0, t);
    DivideOut(c.PercentComplete(), 0.0, t);
  }

  lemma DivideOut(a: real, b: real, t: real)
    requires t > 0.0
    ensures a * t == b * t <==> a == b
  {
    if a > b {
      assert (a - b) * t > 0.0;
    } else if a < b {
      assert (b - a) * t > 0.0;
    }
  }

  lemma PercentOf(c: Counters)
    requires c.processed <= c.total
    ensures 0.0 <= c.PercentComplete() <= 100.0
  {
    if c.total > 0 {
      assert c.processed as real / c.total as real <= 1.0;
    }
  }

  /** The saved checkpoint never claims more than where the leg stopped, which is the batch boundary it
      names; only a negative batch size, which cuts the list off, has no such boundary. */
  lemma CheckpointBound(p: RetryPolicy, items: seq<RuntimeItem>, leg: LegRecord)
    requires IsLeg(p, items, leg) && leg.visits != []
    ensures leg.after.checkpoint.Some?
    ensures leg.after.checkpoint.value.processed <= leg.Stop() <= |items|
    ensures leg.b > 0 ==> var c := leg.after.checkpoint.value;
            leg.Stop() == Min(BatchEnd(c.batch, leg.b), |items|) && ResumeStart(c.processed, leg.b) <= BatchEnd(c.batch, leg.b)
  {
    hide VisitsOf, Count;
    CountTotal(leg.visits);
    if leg.b > 0 {
      LeastBatchStart(Offset(leg.before), leg.b, 0);
      LeastBatchStart(leg.after.processed, leg.b, leg.after.currentBatch);
    }
  }

  // ------------------------------------------------------------------
  // Coverage

  /** Whether one of the first `n` legs came to item `j`, to fetch it or to hold it back. */
  ghost predicate Attempted(legs: seq<LegRecord>, n: nat, j: nat)
    requires n <= |legs|
  {
    exists i :: 0 <= i < n && legs[i].Start() <= j < legs[i].Stop()
  }

  /** A resumed leg starts where everything before it has been attempted. */
  lemma {:induction false} NoGap(p: RetryPolicy, items: seq<RuntimeItem>, legs: seq<LegRecord>, b: nat, i: nat, j: nat)
    requires History(p, items, legs) && UniformBatches(legs, b) && i < |legs|
    requires j < legs[i].Start() && j < |items|
    ensures Attempted(legs, i, j)
  {
    hide VisitsOf, Count, ResumeStart, BatchEnd;
    if i == 0 {
      assert Offset(legs[0].before) == 0;
      LeastBatchStart(0, b, 0);
    } else {
      var leg := legs[i - 1];
      assert IsLeg(p, items, leg);
      if leg.visits == [] {
        NoGap(p, items, legs, b, i - 1, j);
      } else {
        CheckpointBound(p, items, leg);
        if j < leg.Start() {
          NoGap(p, items, legs, b, i - 1, j);
        }
      }
    }
  }

  /** How far the first `n` legs came. */
  ghost function Reach(legs: seq<LegRecord>, n: nat): nat
    requires n <= |legs|
  {
    if n == 0 then 0 else if legs[n - 1].Stop() >= Reach(legs, n - 1) then legs[n - 1].Stop() else Reach(legs, n - 1)
  }

  /** Leg `i` starts behind item `j`, which no earlier leg came as far as. */
  ghost predicate Skips(legs: seq<LegRecord>, i: nat, j: nat)
    requires i < |legs|
  {
    Reach(legs, i) <= j < legs[i].Start()
  }

  lemma {:induction false} ReachIsFurthest(legs: seq<LegRecord>, n: nat, j: nat)
    requires n <= |legs|
    ensures Reach(legs, n) <= j <==> forall i :: 0 <= i < n ==> legs[i].Stop() <= j
  {
    if n > 0 {
      ReachIsFurthest(legs, n - 1, j);
    }
  }

  /** Coverage with any batch sizes, which may change from leg to leg: a history that ends completed has
      come to every item if and only if, when its last leg began, every item before the start of that
      leg had been come to, and, if its batch size is negative, every item from where such a leg is
      cut off. Both points follow from the checkpoint and the batch size. */
  lemma CoverageIff(p: RetryPolicy, items: seq<RuntimeItem>, legs: seq<LegRecord>)
    requires History(p, items, legs) && IsFinished(legs[|legs| - 1].status)
    ensures var n, last := |legs| - 1, legs[|legs| - 1];
            && last.Start() == ResumeStart(Offset(last.before), last.b)
            && last.Stop() >= (if last.b > 0 then |items| else CutOff(last.b, |items|, last.Start()))
    ensures var n, last := |legs| - 1, legs[|legs| - 1];
            (forall j: nat :: j < |items| ==> Attempted(legs, |legs|, j))
            <==> (forall j: nat :: j < |items| && (j < last.Start() || (last.b < 0 && j >= CutOff(last.b, |items|, last.Start()))) ==> Attempted(legs, n, j))
  {
    hide IsLeg, ResumeStart;
    var n, last := |legs| - 1, legs[|legs| - 1];
    FinishedStop(p, items, last);
    forall j: nat | j < |items| && Attempted(legs, n, j) ensures Attempted(legs, |legs|, j) {
      var i :| 0 <= i < n && legs[i].Start() <= j < legs[i].Stop();
    }
    forall j: nat | last.Start() <= j < last.Stop() ensures Attempted(legs, |legs|, j) {
    }
    forall j: nat | (j < last.Start() || j >= last.Stop()) && Attempted(legs, |legs|, j) ensures Attempted(legs, n, j) {
      var i :| 0 <= i < |legs| && legs[i].Start() <= j < legs[i].Stop();
    }
  }

  /** Where a leg with a negative batch size stops: that many items before the end of the list, if it
      starts at the beginning, and at once otherwise. */
  function CutOff(b: int, total: nat, start: nat): nat {
    if start == 0 && total + b > 0 then total + b else start
  }

  lemma FinishedStop(p: RetryPolicy, items: seq<RuntimeItem>, leg: LegRecord)
    requires IsLeg(p, items, leg) && IsFinished(leg.status)
    ensures leg.b != 0
    ensures leg.b > 0 ==> leg.Stop() >= |items|
    ensures leg.b < 0 ==> leg.Stop() == CutOff(leg.b, |items|, leg.Start())
  {
  }

  /** With a negative batch size a job ends completed without having come to its last items: a single leg
      comes to every item if and only if there is none. */
  lemma NegativeSizeIff(p: RetryPolicy, items: seq<RuntimeItem>, leg: LegRecord)
    requires History(p, items, [leg]) && IsFinished(leg.status) && leg.b < 0
    ensures (forall j: nat :: j < |items| ==> Attempted([leg], 1, j)) <==> items == []
  {
    hide ResumeStart;
    var legs := [leg];
    FirstStart(legs[0]);
    FinishedStop(p, items, legs[0]);
    if items != [] {
      var j := |items| - 1;
      assert !(legs[0].Start() <= j < legs[0].Stop());
      assert !Attempted(legs, 1, j);
    }
  }

  /** If the last leg has a positive batch size, an item that no leg came to was skipped by some leg. */
  lemma SomeSkip(p: RetryPolicy, items: seq<RuntimeItem>, legs: seq<LegRecord>, j: nat) returns (i: nat)
    requires History(p, items, legs) && IsFinished(legs[|legs| - 1].status) && legs[|legs| - 1].b > 0
    requires j < |items| && !Attempted(legs, |legs|, j)
    ensures i < |legs| && Skips(legs, i, j)
  {
    hide LegRecord.Start, LegRecord.Stop, IsLeg;
    FinishedLeg(p, items, legs[|legs| - 1]);
    i := SkipBefore(legs, |legs| - 1, j);
  }

  lemma {:induction false} SkipBefore(legs: seq<LegRecord>, n: nat, j: nat) returns (i: nat)
    requires n < |legs| && j < legs[n].Stop() && !Attempted(legs, |legs|, j)
    ensures i < |legs| && Skips(legs, i, j)
  {
    hide LegRecord.Start, LegRecord.Stop;
    i := n;
    ReachIsFurthest(legs, n, j);
    if Reach(legs, n) > j {
      var k :| 0 <= k < n && legs[k].Stop() > j;
      i := SkipBefore(legs, k, j);
    }
  }

  /** In particular, when every leg starts no later than the furthest point that was reached. */
  lemma GaplessCoversAll(p: RetryPolicy, items: seq<RuntimeItem>, legs: seq<LegRecord>, j: nat)
    requires History(p, items, legs) && IsFinished(legs[|legs| - 1].status) && legs[|legs| - 1].b > 0 && j < |items|
    requires forall i :: 0 <= i < |legs| ==> legs[i].Start() <= Reach(legs, i) || |items| <= Reach(legs, i)
    ensures Attempted(legs, |legs|, j)
  {
    hide LegRecord.Start, LegRecord.Stop, IsLeg;
    if !Attempted(legs, |legs|, j) {
      var i := SomeSkip(p, items, legs, j);
    }
  }

  /** With one batch size for all legs that is always so: a history that ends completed has come to
      every item, whatever the limiter did. */
  lemma CompletedCoversAll(p: RetryPolicy, items: seq<RuntimeItem>, legs: seq<LegRecord>, b: nat, j: nat)
    requires CompletedHistory(p, items, legs, b) && j < |items|
    ensures Attempted(legs, |legs|, j)
  {
    hide LegRecord.Start, LegRecord.Stop, IsLeg;
    forall i | 0 <= i < |legs| ensures legs[i].Start() <= Reach(legs, i) || |items| <= Reach(legs, i) {
      var r := Reach(legs, i);
      if r < legs[i].Start() && r < |items| {
        NoGap(p, items, legs, b, i, r);
        ReachIsFurthest(legs, i, r);
      }
    }
    GaplessCoversAll(p, items, legs, j);
  }

  // ------------------------------------------------------------------
  // The fetch sequence

  /** The list indices that a stretch of visits fetched. */
  ghost function Indices(start: nat, visits: seq<Visit>): seq<nat> {
    if visits == [] then []
    else
      var n := |visits| - 1;
      Indices(start, visits[..n]) + if visits[n].Fetched? then [start + n] else []
  }

  /** The indices that a history fetched, leg after leg. */
  ghost function FetchedBy(legs: seq<LegRecord>): seq<nat> {
    if legs == [] then []
    else FetchedBy(legs[..|legs| - 1]) + Indices(legs[|legs| - 1].Start(), legs[|legs| - 1].visits)
  }

  ghost function Range(a: nat, b: nat): (r: seq<nat>)
    requires a <= b
    ensures |r| == b - a && forall i :: 0 <= i < |r| ==> r[i] == a + i
  {
    seq(b - a, i requires 0 <= i < b - a => a + i)
  }

  /** Where the leg after leg `i` starts; the end of the list when there is none. */
  ghost function NextStart(legs: seq<LegRecord>, i: nat, total: nat): nat
    requires i < |legs|
  {
    if i + 1 < |legs| then legs[i + 1].Start() else total
  }

  /** A held item is lost when the next leg starts behind it. */
  ghost predicate LostHold(legs: seq<LegRecord>, i: nat, k: nat, total: nat)
    requires i < |legs| && k < |legs[i].visits|
  {
    legs[i].visits[k].Held? && legs[i].Start() + k < NextStart(legs, i, total)
  }

  ghost predicate LosesNothing(legs: seq<LegRecord>, n: nat, total: nat)
    requires n <= |legs|
  {
    forall i, k :: 0 <= i < n && 0 <= k < |legs[i].visits| ==> !LostHold(legs, i, k, total)
  }

  lemma {:induction false} IndicesConcat(start: nat, a: seq<Visit>, b: seq<Visit>)
    ensures Indices(start, a + b) == Indices(start, a) + Indices(start + |a|, b)
  {
    if b == [] {
      assert a + b == a;
    } else {
      assert (a + b)[..|a + b| - 1] == a + b[..|b| - 1];
      IndicesConcat(start, a, b[..|b| - 1]);
    }
  }

  lemma {:induction false} AllFetched(start: nat, visits: seq<Visit>)
    requires forall k :: 0 <= k < |visits| ==> visits[k].Fetched?
    ensures Indices(start, visits) == Range(start, start + |visits|)
    ensures Processed(visits) == |visits|
  {
    if visits != [] {
      AllFetched(start, visits[..|visits| - 1]);
    }
  }

  lemma {:induction false} NoneProcessed(start: nat, visits: seq<Visit>)
    requires Processed(visits) == 0
    ensures Indices(start, visits) == []
  {
    if visits != [] {
      NoneProcessed(start, visits[..|visits| - 1]);
    }
  }

  lemma {:induction false} InIndices(start: nat, visits: seq<Visit>, x: nat)
    requires x in Indices(start, visits)
    ensures start <= x < start + |visits| && visits[x - start].Fetched?
  {
    if x in Indices(start, visits[..|visits| - 1]) {
      InIndices(start, visits[..|visits| - 1], x);
    }
  }

  /** A leg that starts exactly at its offset and loses no held item fetches exactly the stretch
      from its offset to the count it leaves behind, each item once and in order. */
  lemma LosslessLeg(p: RetryPolicy, items: seq<RuntimeItem>, leg: LegRecord, next: nat)
    requires IsLeg(p, items, leg) && leg.b > 0
    requires Offset(leg.before) <= |items|
    requires Offset(leg.before) == leg.Start() || Offset(leg.before) == |items|
    requires leg.after.processed <= next
    requires next == ResumeStart(leg.after.processed, leg.b) || (next == |items| && leg.Stop() >= next)
    requires forall k :: 0 <= k < |leg.visits| && leg.visits[k].Held? ==> leg.Start() + k >= next
    ensures leg.after.processed >= Offset(leg.before)
    ensures Indices(leg.Start(), leg.visits) == Range(Offset(leg.before), leg.after.processed)
    ensures leg.after.processed == next || leg.after.processed == |items|
  {
    hide VisitsOf, Count, ResumeStart, Indices, Range;
    LeastBatchStart(Offset(leg.before), leg.b, 0);
    if leg.visits == [] {
      NothingCounted();
      NoneProcessed(leg.Start(), leg.visits);
      NoRange(Offset(leg.before));
    } else {
      LeastBatchStart(leg.after.processed, leg.b, leg.after.currentBatch);
      FetchedThenHeld(leg.Start(), leg.visits, Min(next, leg.Stop()) - leg.Start());
    }
  }

  lemma NoRange(a: nat)
    ensures Range(a, a) == []
  {
  }

  /** Visits that all fetch up to position `m`, as many of which are processed as there are visits up to
      there, or more. */
  lemma FetchedThenHeld(start: nat, visits: seq<Visit>, m: nat)
    requires m <= |visits| && forall k :: 0 <= k < m ==> visits[k].Fetched?
    ensures m <= Processed(visits) <= |visits|
    ensures Processed(visits) == m ==> Indices(start, visits) == Range(start, start + m)
  {
    hide Count;
    var a, c := visits[..m], visits[m..];
    assert visits == a + c;
    CountTotal(visits);
    AllFetched(start, a);
    forall kind ensures Count(visits, kind) == Count(a, kind) + Count(c, kind) {
      CountConcat(a, c, kind);
    }
    if Processed(visits) == m {
      NoneProcessed(start + m, c);
      IndicesConcat(start, a, c);
    }
  }

  /** Up to a leg before which nothing was lost, the fetched indices are an initial stretch of
      the list, and it ends where the leg starts. */
  lemma {:induction false} FetchedPrefix(p: RetryPolicy, items: seq<RuntimeItem>, legs: seq<LegRecord>, b: nat, i: nat)
    requires History(p, items, legs) && UniformBatches(legs, b) && i < |legs|
    requires LosesNothing(legs, i, |items|)
    ensures Offset(legs[i].before) <= |items|
    ensures FetchedBy(legs[..i]) == Range(0, Offset(legs[i].before))
    ensures Offset(legs[i].before) == legs[i].Start() || Offset(legs[i].before) == |items|
  {
    hide IsLeg, ResumeStart;
    ProcessedBound(p, items, legs, i);
    if i == 0 {
      LeastBatchStart(0, b, 0);
    } else {
      FetchedPrefix(p, items, legs, b, i - 1);
      var leg := legs[i - 1];
      assert IsLeg(p, items, leg);
      ProcessedBound(p, items, legs, i - 1);
      LeastBatchStart(leg.after.processed, b, 0);
      forall k | 0 <= k < |leg.visits| && leg.visits[k].Held? ensures leg.Start() + k >= legs[i].Start() {
        assert !LostHold(legs, i - 1, k, |items|);
      }
      LosslessLeg(p, items, leg, legs[i].Start());
      assert legs[..i][..i - 1] == legs[..i - 1];
    }
  }

  /** Legs start ever later. */
  lemma {:induction false} StartsGrow(p: RetryPolicy, items: seq<RuntimeItem>, legs: seq<LegRecord>, b: nat, i: nat, k: nat)
    requires History(p, items, legs) && UniformBatches(legs, b) && i <= k < |legs|
    ensures legs[i].Start() <= legs[k].Start()
  {
    hide IsLeg;
    if i < k {
      StartsGrow(p, items, legs, b, i, k - 1);
      ProcessedBound(p, items, legs, k - 1);
      var x, y := Offset(legs[k - 1].before), Offset(legs[k].before);
      LeastBatchStart(y, b, 0);
      LeastBatchStart(x, b, (y + b - 1) / b);
    }
  }

  /** What was fetched was fetched by one of the legs. */
  lemma {:induction false} FetchedByLeg(legs: seq<LegRecord>, x: nat) returns (i: nat)
    requires x in FetchedBy(legs)
    ensures i < |legs| && x in Indices(legs[i].Start(), legs[i].visits)
  {
    var n := |legs| - 1;
    if x in Indices(legs[n].Start(), legs[n].visits) {
      return n;
    }
    i := FetchedByLeg(legs[..n], x);
  }

  /** The first lost item is never fetched, neither before nor after. */
  lemma LostForGood(p: RetryPolicy, items: seq<RuntimeItem>, legs: seq<LegRecord>, b: nat, i: nat, k: nat)
    requires History(p, items, legs) && UniformBatches(legs, b) && i < |legs|
    requires LosesNothing(legs, i, |items|)
    requires k < |legs[i].visits| && LostHold(legs, i, k, |items|)
    ensures legs[i].Start() + k < |items| && legs[i].Start() + k !in FetchedBy(legs)
  {
    hide ResumeStart, IsLeg, FetchedBy, Indices;
    var x := legs[i].Start() + k;
    LostInList(p, items, legs, b, i, k);
    if x in FetchedBy(legs) {
      var j := FetchedByLeg(legs, x);
      InIndices(legs[j].Start(), legs[j].visits, x);
      if j < i {
        InFetchedBy(legs, j, i, x);
        NotBefore(p, items, legs, b, i, x);
      } else if i < j {
        StartsGrow(p, items, legs, b, i + 1, j);
      }
    }
  }

  lemma LostInList(p: RetryPolicy, items: seq<RuntimeItem>, legs: seq<LegRecord>, b: nat, i: nat, k: nat)
    requires History(p, items, legs) && i < |legs| && k < |legs[i].visits|
    ensures legs[i].Start() + k < |items|
  {
    hide ResumeStart, Progress, VisitsOf;
    assert IsLeg(p, items, legs[i]);
  }

  lemma NotBefore(p: RetryPolicy, items: seq<RuntimeItem>, legs: seq<LegRecord>, b: nat, i: nat, x: nat)
    requires History(p, items, legs) && UniformBatches(legs, b) && i < |legs|
    requires LosesNothing(legs, i, |items|) && x >= legs[i].Start()
    ensures x !in FetchedBy(legs[..i])
  {
    hide ResumeStart, IsLeg, FetchedBy, LosesNothing;
    FetchedPrefix(p, items, legs, b, i);
    StartAtLeast(Offset(legs[i].before), b);
  }

  lemma {:induction false} InFetchedBy(legs: seq<LegRecord>, j: nat, n: nat, x: nat)
    requires j < n <= |legs| && x in Indices(legs[j].Start(), legs[j].visits)
    ensures x in FetchedBy(legs[..n])
  {
    assert legs[..n][..n - 1] == legs[..n - 1];
    if j < n - 1 {
      InFetchedBy(legs, j, n - 1, x);
    }
  }

  /** Either nothing is lost, or there is a first leg that loses something. */
  lemma {:induction false} FirstLoss(legs: seq<LegRecord>, n: nat, total: nat) returns (i: nat, k: nat)
    requires n <= |legs| && !LosesNothing(legs, n, total)
    ensures i < n && k < |legs[i].visits| && LosesNothing(legs, i, total) && LostHold(legs, i, k, total)
  {
    if LosesNothing(legs, n - 1, total) {
      i := n - 1;
      k :| 0 <= k < |legs[i].visits| && LostHold(legs, i, k, total);
    } else {
      i, k := FirstLoss(legs, n - 1, total);
    }
  }

  /** A completed history fetches every item of the list if and only if no leg held an item back
      behind the point where the next leg starts; and then it fetches each item exactly once, in
      list order, as one uninterrupted run without rate limits does. */
  lemma CompletedFetchesAllIff(p: RetryPolicy, items: seq<RuntimeItem>, legs: seq<LegRecord>, b: nat)
    requires CompletedHistory(p, items, legs, b)
    ensures (forall j :: 0 <= j < |items| ==> j in FetchedBy(legs)) <==> LosesNothing(legs, |legs|, |items|)
    ensures LosesNothing(legs, |legs|, |items|) ==> FetchedBy(legs) == Range(0, |items|)
  {
    hide IsLeg, ResumeStart, FetchedBy, LosesNothing, Range;
    if LosesNothing(legs, |legs|, |items|) {
      LosslessHistory(p, items, legs, b);
      InRange(|items|);
    } else {
      var i, k := FirstLoss(legs, |legs|, |items|);
      LostForGood(p, items, legs, b, i, k);
    }
  }

  lemma InRange(n: nat)
    ensures forall j :: 0 <= j < n ==> j in Range(0, n)
  {
    forall j | 0 <= j < n ensures j in Range(0, n) {
      assert Range(0, n)[j] == j;
    }
  }

  lemma LosslessHistory(p: RetryPolicy, items: seq<RuntimeItem>, legs: seq<LegRecord>, b: nat)
    requires CompletedHistory(p, items, legs, b)
    requires LosesNothing(legs, |legs|, |items|)
    ensures FetchedBy(legs) == Range(0, |items|)
  {
    hide ResumeStart, IsLeg;
    var n := |legs| - 1;
    var leg := legs[n];
    FetchedPrefix(p, items, legs, b, n);
    ProcessedBound(p, items, legs, n);
    FinishedLeg(p, items, leg);
    forall k | 0 <= k < |leg.visits| && leg.visits[k].Held? ensures leg.Start() + k >= |items| {
      assert !LostHold(legs, n, k, |items|);
    }
    LosslessLeg(p, items, leg, |items|);
    RangeConcat(Offset(leg.before), |items|);
  }

  lemma RangeConcat(m: nat, n: nat)
    requires m <= n
    ensures Range(0, m) + Range(m, n) == Range(0, n)
  {
  }

  lemma FinishedLeg(p: RetryPolicy, items: seq<RuntimeItem>, leg: LegRecord)
    requires IsLeg(p, items, leg) && IsFinished(leg.status) && leg.b > 0
    ensures leg.Stop() >= |items|
  {
  }

  // ------------------------------------------------------------------
  // Counts over the legs

  /** How fetching an item ends. */
  datatype Ending = Imported | Empty | Failure

  function EndingOf(a: Answer): Ending {
    match a
    case Usable => Imported
    case Blank => Empty
    case Raised(_) => Failure
  }

  function CountOf(visits: seq<Visit>, ending: Ending): nat {
    match ending
    case Imported => Count(visits, Importing)
    case Empty => Count(visits, Skipping)
    case Failure => Failures(visits)
  }

  function Counted(c: Counters, ending: Ending): nat {
    match ending
    case Imported => c.imported
    case Empty => c.skipped
    case Failure => c.failed
  }

  /** A counter summed over the legs; each leg starts it from zero again. */
  ghost function Total(legs: seq<LegRecord>, ending: Ending): nat {
    if legs == [] then 0 else Total(legs[..|legs| - 1], ending) + Counted(legs[|legs| - 1].after, ending)
  }

  /** How many of the listed indices have an item that ends in the given way. */
  ghost function HowMany(xs: seq<nat>, items: seq<RuntimeItem>, f: RuntimeItem -> Answer, ending: Ending): nat {
    if xs == [] then 0
    else
      var x := xs[|xs| - 1];
      HowMany(xs[..|xs| - 1], items, f, ending) + if x < |items| && EndingOf(f(items[x])) == ending then 1 else 0
  }

  /** Fetching an item always ends the same way. */
  ghost predicate Deterministic(visits: seq<Visit>, f: RuntimeItem -> Answer) {
    forall k :: 0 <= k < |visits| && visits[k].Fetched? ==> Outcome(visits[k].calls) == f(visits[k].item)
  }

  lemma {:induction false} HowManyConcat(a: seq<nat>, b: seq<nat>, items: seq<RuntimeItem>, f: RuntimeItem -> Answer, ending: Ending)
    ensures HowMany(a + b, items, f, ending) == HowMany(a, items, f, ending) + HowMany(b, items, f, ending)
  {
    if b == [] {
      assert a + b == a;
    } else {
      assert (a + b)[..|a + b| - 1] == a + b[..|b| - 1];
      HowManyConcat(a, b[..|b| - 1], items, f, ending);
    }
  }

  lemma {:induction false} StretchCount(start: nat, visits: seq<Visit>, items: seq<RuntimeItem>, f: RuntimeItem -> Answer, ending: Ending)
    requires start + |visits| <= |items|
    requires forall k :: 0 <= k < |visits| ==> visits[k].item == items[start + k]
    requires Deterministic(visits, f)
    ensures CountOf(visits, ending) == HowMany(Indices(start, visits), items, f, ending)
  {
    hide EndingOf, CountOf;
    if visits != [] {
      var n := |visits| - 1;
      var v := visits[n];
      StretchCount(start, visits[..n], items, f, ending);
      CountOfLast(visits, ending);
      if v.Fetched? {
        HowManyAppend(Indices(start, visits[..n]), start + n, items, f, ending);
      } else {
        assert Indices(start, visits) == Indices(start, visits[..n]);
      }
    } else {
      NoneCounted(ending);
    }
  }

  lemma NoneCounted(ending: Ending)
    ensures CountOf([], ending) == 0
  {
  }

  lemma CountOfLast(visits: seq<Visit>, ending: Ending)
    requires visits != []
    ensures var v := visits[|visits| - 1];
            CountOf(visits, ending) == CountOf(visits[..|visits| - 1], ending)
                                     + if v.Fetched? && EndingOf(Outcome(v.calls)) == ending then 1 else 0
  {
    hide Outcome;
  }

  lemma HowManyAppend(xs: seq<nat>, x: nat, items: seq<RuntimeItem>, f: RuntimeItem -> Answer, ending: Ending)
    ensures HowMany(xs + [x], items, f, ending) ==
            HowMany(xs, items, f, ending) + if x < |items| && EndingOf(f(items[x])) == ending then 1 else 0
  {
    assert (xs + [x])[..|xs|] == xs;
  }

  lemma LegCount(p: RetryPolicy, items: seq<RuntimeItem>, leg: LegRecord, f: RuntimeItem -> Answer, ending: Ending)
    requires IsLeg(p, items, leg) && Deterministic(leg.visits, f)
    ensures Counted(leg.after, ending) == HowMany(Indices(leg.Start(), leg.visits), items, f, ending)
  {
    hide ResumeStart, IsVisit;
    if leg.visits == [] {
      NothingCounted();
    } else {
      assert forall k :: 0 <= k < |leg.visits| ==> items[leg.Start()..leg.Stop()][k] == items[leg.Start() + k];
      StretchCount(leg.Start(), leg.visits, items, f, ending);
    }
  }

  lemma {:induction false} HistoryCount(p: RetryPolicy, items: seq<RuntimeItem>, legs: seq<LegRecord>, f: RuntimeItem -> Answer, ending: Ending)
    requires forall i :: 0 <= i < |legs| ==> IsLeg(p, items, legs[i]) && Deterministic(legs[i].visits, f)
    ensures Total(legs, ending) == HowMany(FetchedBy(legs), items, f, ending)
  {
    hide IsLeg, Deterministic;
    if legs != [] {
      var n := |legs| - 1;
      HistoryCount(p, items, legs[..n], f, ending);
      LegCount(p, items, legs[n], f, ending);
      HowManyConcat(FetchedBy(legs[..n]), Indices(legs[n].Start(), legs[n].visits), items, f, ending);
    }
  }

  /** Interruption refines the uninterrupted run: a completed history that loses nothing fetches
      what one completed leg without held items fetches, in the same order, whatever the two
      batch sizes are; and when fetching is deterministic its counters add up to the same. */
  lemma InterruptionIsInvisible(p: RetryPolicy, items: seq<RuntimeItem>, legs: seq<LegRecord>, b: nat,
                                whole: LegRecord, c: nat, f: RuntimeItem -> Answer, ending: Ending)
    requires CompletedHistory(p, items, legs, b) && LosesNothing(legs, |legs|, |items|)
    requires CompletedHistory(p, items, [whole], c)
    requires forall k :: 0 <= k < |whole.visits| ==> whole.visits[k].Fetched?
    requires Deterministic(whole.visits, f)
    requires forall i :: 0 <= i < |legs| ==> Deterministic(legs[i].visits, f)
    ensures FetchedBy(legs) == FetchedBy([whole]) == Range(0, |items|)
    ensures Total(legs, ending) == Counted(whole.after, ending)
  {
    hide IsLeg, Deterministic, ResumeStart;
    LosslessHistory(p, items, legs, b);
    LosslessHistory(p, items, [whole], c);
    HistoryCount(p, items, legs, f, ending);
    HistoryCount(p, items, [whole], f, ending);
    assert [whole][..0] == [];
    assert Total([], ending) == 0;
  }

  lemma {:induction false} InVisits(legs: seq<LegRecord>, i: nat, k: nat) returns (m: nat)
    requires i < |legs| && k < |legs[i].visits|
    ensures m < |VisitsIn(legs)| && VisitsIn(legs)[m] == legs[i].visits[k]
  {
    var n := |legs| - 1;
    if i < n {
      m := InVisits(legs[..n], i, k);
    } else {
      m := |VisitsIn(legs[..n])| + k;
    }
  }

  /** All visits of a job are in the journal, wherever they stand, and whatever other jobs did between
      its legs. */
  ghost predicate InJournal(journal: seq<Entry>, connector: string, legs: seq<LegRecord>) {
    forall i, k :: 0 <= i < |legs| && 0 <= k < |legs[i].visits| ==> Entry(connector, legs[i].visits[k]) in journal
  }

  /** No rate-limit failure of the connector is in the journal. */
  ghost predicate NoHits(journal: seq<Entry>, connector: string) {
    forall j :: 0 <= j < |journal| && journal[j].connector == connector && journal[j].visit.Fetched? ==> journal[j].visit.hit.None?
  }

  /** The journal that `RunJob` leaves has them, and so has any journal that goes on from there. */
  lemma RunIsInJournal(before: seq<Entry>, connector: string, legs: seq<LegRecord>, after: seq<Entry>)
    ensures InJournal(before + Entries(connector, VisitsIn(legs)) + after, connector, legs)
  {
    hide VisitsIn;
    var journal := before + Entries(connector, VisitsIn(legs)) + after;
    forall i, k | 0 <= i < |legs| && 0 <= k < |legs[i].visits| ensures Entry(connector, legs[i].visits[k]) in journal {
      var m := InVisits(legs, i, k);
      assert journal[|before| + m] == Entry(connector, legs[i].visits[k]);
    }
  }

  /** If the journal of the processor shows no rate-limit failure of a connector, and the limiter had been
      told nothing before, then no leg of a job of that connector held an item back. */
  lemma NoHitNoHold(journal: seq<Entry>, connector: string, legs: seq<LegRecord>, i: nat, k: nat)
    requires HoldsCaused(journal, []) && InJournal(journal, connector, legs) && NoHits(journal, connector)
    requires i < |legs| && k < |legs[i].visits|
    ensures legs[i].visits[k].Fetched?
  {
    hide HoldsCaused;
    if legs[i].visits[k].Held? {
      assert Entry(connector, legs[i].visits[k]) in journal;
      var m :| 0 <= m < |journal| && journal[m] == Entry(connector, legs[i].visits[k]);
      var j := HoldHasHit(journal, m);
    }
  }

  /** Without a rate limit nothing is lost: a completed job of a connector whose rate-limit failures do not
      occur in the journal fetches every item exactly once and in list order, however often it was
      cancelled or failed and resumed, and whatever other jobs ran in between. */
  lemma NoHitLosesNothing(p: RetryPolicy, items: seq<RuntimeItem>, legs: seq<LegRecord>, b: nat, journal: seq<Entry>, connector: string)
    requires CompletedHistory(p, items, legs, b)
    requires HoldsCaused(journal, []) && InJournal(journal, connector, legs) && NoHits(journal, connector)
    ensures LosesNothing(legs, |legs|, |items|) && FetchedBy(legs) == Range(0, |items|)
  {
    hide HoldsCaused, CompletedHistory, FetchedBy, Range, InJournal, NoHits;
    forall i, k | 0 <= i < |legs| && 0 <= k < |legs[i].visits| ensures !LostHold(legs, i, k, |items|) {
      NoHitNoHold(journal, connector, legs, i, k);
    }
    LosslessHistory(p, items, legs, b);
  }

  // ------------------------------------------------------------------
  // What the record of a job does not show

  /** A visit that fetches an item at the first call. */
  function Plain(item: RuntimeItem, at: real): Visit {
    Fetched(item, [Call(item, at, Usable)], None)
  }

  lemma PlainIsVisit(p: RetryPolicy, item: RuntimeItem, at: real)
    requires p.maxRetries >= 0
    ensures IsVisit(p, Plain(item, at)) && KindOf(Plain(item, at)) == Importing
  {
  }

  lemma CountFew(u: Visit, v: Visit)
    ensures forall kind :: Count([u], kind) == if KindOf(u) == kind then 1 else 0
    ensures forall kind :: Count([u, v], kind) == (if KindOf(u) == kind then 1 else 0) + (if KindOf(v) == kind then 1 else 0)
  {
    hide KindOf;
    assert [u, v][..1] == [u] && [u][..0] == [];
    assert forall kind :: Count([u], kind) == Count([], kind) + if KindOf(u) == kind then 1 else 0;
  }

  /** The counters left by a leg with batch size 1. */
  function Left(total: nat, offset: nat, visits: seq<Visit>): Counters {
    var processed := offset + Processed(visits);
    var stop := offset + |visits|;
    Counters(total, processed, Count(visits, Importing), Count(visits, Skipping), Failures(visits),
             Count(visits, Holding) + Count(visits, Limiting), stop, Some(Checkpoint(processed, stop, total)))
  }

  /** A leg with batch size 1 that visits something. */
  lemma ShortLeg(p: RetryPolicy, items: seq<RuntimeItem>, leg: LegRecord)
    requires leg.b == 1 && leg.visits != []
    requires var start := Offset(leg.before);
             && start + |leg.visits| <= |items|
             && VisitsOf(p, items[start..start + |leg.visits|], leg.visits)
             && leg.after == Left(|items|, start, leg.visits)
             && Ended(1, leg.after, leg.visits, start + |leg.visits|, leg.status, leg.cancelRequested)
    ensures leg.Start() == Offset(leg.before) && IsLeg(p, items, leg)
  {
    hide VisitsOf, Count, Ended;
  }

  lemma ShortIndices(start: nat, u: Visit, v: Visit)
    ensures Indices(start, [u, v]) == (if u.Fetched? then [start] else []) + (if v.Fetched? then [start + 1] else [])
  {
    assert [u, v][..1] == [u] && [u][..0] == [];
    assert Indices(start, [u]) == Indices(start, []) + if u.Fetched? then [start] else [];
  }

  lemma FetchedByTwo(first: LegRecord, second: LegRecord)
    ensures FetchedBy([first, second]) == Indices(first.Start(), first.visits) + Indices(second.Start(), second.visits)
  {
    hide Indices;
    assert [first, second][..1] == [first] && [first][..0] == [];
    assert FetchedBy([first]) == FetchedBy([]) + Indices(first.Start(), first.visits);
  }

  /** A job can end completed, at 100 percent and without a failure, although its first item was
      held back by the limiter and never fetched: the processed count, which skips held items,
      sends the resumed leg back over an item that was fetched before. The limiter allows it: some
      other item of the connector failed at time 0, the first item is held back at 59 seconds, and the
      calls begin at 60. */
  lemma LostItemExample(p: RetryPolicy, x: RuntimeItem, y: RuntimeItem, z: RuntimeItem, connector: string, other: RuntimeItem, error: string)
    returns (legs: seq<LegRecord>, journal: seq<Entry>)
    requires p.maxRetries >= 0 && IsRateLimitError(error) && (p.maxRetries == 0 || !IsRetryable(error))
    ensures CompletedHistory(p, [x, y, z], legs, 1)
    ensures var last := legs[|legs| - 1];
            last.status == Completed && last.after.processed == last.after.total == 3 && last.after.PercentComplete() == 100.0
    ensures 0 !in FetchedBy(legs) && FetchedBy(legs) == [1, 1, 2]
    ensures journal == [Entry(connector, FailedAtOnce(other, error))] + Entries(connector, VisitsIn(legs))
    ensures HoldsCaused(journal, []) && WindowsRespected(journal) && AllVisits(p, journal)
  {
    hide IsLeg, IsVisit, KindOf, Indices, FetchedBy, ResumeStart, Count, HoldsCaused, WindowsRespected, AllVisits, Entries, VisitsIn;
    var u, v, v', w := Held(x, 59.0), Plain(y, 60.0), Plain(y, 61.0), Plain(z, 62.0);
    var first := LegRecord(1, None, [u, v], Left(3, 0, [u, v]), Cancelled, true);
    var second := LegRecord(1, first.after.checkpoint, [v', w], Left(3, 1, [v', w]), Completed, false);
    legs := [first, second];
    PlainIsVisit(p, y, 60.0);
    PlainIsVisit(p, y, 61.0);
    PlainIsVisit(p, z, 62.0);
    HeldIsVisit(p, x, 59.0);
    CountFew(u, v);
    CountFew(v', w);
    assert [x, y, z][0..2] == [x, y] && [x, y, z][1..3] == [y, z];
    ShortLeg(p, [x, y, z], first);
    ShortLeg(p, [x, y, z], second);
    ShortIndices(0, u, v);
    ShortIndices(1, v', w);
    FetchedByTwo(first, second);
    journal := PlausibleJournal(p, x, y, z, connector, other, error);
    VisitsOfTwo(first, second);
    FiveEntries(connector, FailedAtOnce(other, error), u, v, v', w);
  }

  /** A visit that fails at its first call, at time 0, with a rate-limit error. */
  function FailedAtOnce(item: RuntimeItem, error: string): Visit {
    Fetched(item, [Call(item, 0.0, Raised(error))], Some(0.0))
  }

  lemma VisitsOfTwo(first: LegRecord, second: LegRecord)
    ensures VisitsIn([first, second]) == first.visits + second.visits
  {
    VisitsInOne(first);
    VisitsInNext([first], second);
    assert [first] + [second] == [first, second];
  }

  lemma FiveEntries(connector: string, a: Visit, u: Visit, v: Visit, v': Visit, w: Visit)
    ensures [Entry(connector, a)] + Entries(connector, [u, v] + [v', w])
         == [Entry(connector, a), Entry(connector, u), Entry(connector, v), Entry(connector, v'), Entry(connector, w)]
  {
  }

  lemma PlausibleJournal(p: RetryPolicy, x: RuntimeItem, y: RuntimeItem, z: RuntimeItem, c: string, other: RuntimeItem, error: string)
    returns (journal: seq<Entry>)
    requires p.maxRetries >= 0 && IsRateLimitError(error) && (p.maxRetries == 0 || !IsRetryable(error))
    ensures journal == [Entry(c, FailedAtOnce(other, error)), Entry(c, Held(x, 59.0)), Entry(c, Plain(y, 60.0)),
                        Entry(c, Plain(y, 61.0)), Entry(c, Plain(z, 62.0))]
    ensures HoldsCaused(journal, []) && WindowsRespected(journal) && AllVisits(p, journal)
  {
    hide IsRateLimitError, IsRetryable;
    var a := Entry(c, FailedAtOnce(other, error));
    journal := [a, Entry(c, Held(x, 59.0)), Entry(c, Plain(y, 60.0)), Entry(c, Plain(y, 61.0)), Entry(c, Plain(z, 62.0))];
    HitsAppend([], a);
    assert journal[..1] == [] + [a];
    WindowAppend([], Opened(c, 0.0, DEFAULT_RETRY_AFTER), c);
    assert [] + HitsOf(journal[..1]) == [] + [Opened(c, 0.0, DEFAULT_RETRY_AFTER)];
    assert LimitedAt([] + HitsOf(journal[..1]), c, 59.0);
  }

  lemma HeldIsVisit(p: RetryPolicy, item: RuntimeItem, at: real)
    ensures IsVisit(p, Held(item, at)) && KindOf(Held(item, at)) == Holding
  {
  }

  /** Resuming uses the batch size the processor has at that time, not the job's. A resumed leg
      that runs to the end leaves no item unattempted if and only if its batch size is positive and its
      first batch starts no later than the boundary the first leg reached, or nothing was left to do. */
  lemma ResizedResumeCoversIff(p: RetryPolicy, items: seq<RuntimeItem>, first: LegRecord, second: LegRecord)
    requires History(p, items, [first, second]) && IsFinished(second.status)
    ensures (forall j: nat :: j < |items| ==> Attempted([first, second], 2, j))
       <==> (second.b > 0 && second.Start() <= first.Stop()) || |items| <= first.Stop()
  {
    hide ResumeStart, Progress, VisitsOf;
    var legs := [first, second];
    assert first.Start() == 0 by { FirstStart(first); }
    assert IsLeg(p, items, legs[1]);
    FinishedStop(p, items, second);
    if (second.b > 0 && second.Start() <= first.Stop()) || |items| <= first.Stop() {
      forall j: nat | j < |items| ensures Attempted(legs, 2, j) {
        if j < first.Stop() {
          assert legs[0].Start() <= j < legs[0].Stop();
        } else {
          assert legs[1].Start() <= j < legs[1].Stop();
        }
      }
    } else {
      var j := if second.b > 0 then first.Stop() else |items| - 1;
      assert forall i :: 0 <= i < 2 ==> !(legs[i].Start() <= j < legs[i].Stop());
      assert !Attempted(legs, 2, j);
    }
  }

  lemma FirstStart(leg: LegRecord)
    requires leg.before == None
    ensures leg.Start() == 0
  {
    if leg.b > 0 {
      LeastBatchStart(0, leg.b, 0);
    }
  }

  /** Such a gap: one of three items was processed with batch size 1; resumed with batch size 3,
      the job ends completed without having come to the other two. */
  lemma ResizedResumeExample(p: RetryPolicy, x: RuntimeItem, y: RuntimeItem, z: RuntimeItem)
    returns (first: LegRecord, second: LegRecord)
    requires p.maxRetries >= 0
    ensures History(p, [x, y, z], [first, second])
    ensures second.status == Completed && second.after.processed == 1 && second.after.total == 3
    ensures !Attempted([first, second], 2, 1) && !Attempted([first, second], 2, 2)
  {
    hide IsVisit, KindOf, ResumeStart, IsLeg, Count;
    var v := Plain(x, 0.0);
    first := LegRecord(1, None, [v], Left(3, 0, [v]), Cancelled, true);
    second := LegRecord(3, first.after.checkpoint, [], Idle(first.after), Completed, false);
    PlainIsVisit(p, x, 0.0);
    CountFew(v, v);
    assert [x, y, z][0..1] == [x];
    ShortLeg(p, [x, y, z], first);
    IdleLeg(p, [x, y, z], second, first.after);
    var legs := [first, second];
    assert legs[0].Stop() == 1 && legs[1].Start() == legs[1].Stop() == 3;
  }

  /** Such a job: of two items a batch size of -1 leaves the second out. */
  lemma NegativeSizeExample(p: RetryPolicy, x: RuntimeItem, y: RuntimeItem) returns (leg: LegRecord)
    requires p.maxRetries >= 0
    ensures History(p, [x, y], [leg]) && leg.b == -1 && leg.status == Completed
    ensures leg.after.processed == 1 && leg.after.total == 2 && !Attempted([leg], 1, 1)
  {
    hide IsVisit, KindOf, Count;
    var v := Plain(x, 0.0);
    leg := LegRecord(-1, None, [v], Left(2, 0, [v]), Completed, false);
    PlainIsVisit(p, x, 0.0);
    CountFew(v, v);
    assert [x, y][0..1] == [x];
    var legs := [leg];
    assert legs[0].Start() == 0 && legs[0].Stop() == 1;
  }

  /** The counters left by a leg that finds nothing to do. */
  function Idle(c: Counters): Counters {
    Counters(c.total, c.processed, Count([], Importing), Count([], Skipping), Failures([]),
             Count([], Holding), 0, c.checkpoint)
  }

  lemma IdleLeg(p: RetryPolicy, items: seq<RuntimeItem>, leg: LegRecord, c: Counters)
    requires leg.b == 3 && Offset(leg.before) == 1 && |items| == 3
    requires leg.visits == [] && leg.status == Completed
    requires leg.before == c.checkpoint && c.total == 3 && c.processed == 1 && leg.after == Idle(c)
    ensures leg.Start() == 3 && IsLeg(p, items, leg)
  {
    NothingCounted();
  }

  /** The final status speaks for the last leg alone: a job whose first leg failed an item can
      still end completed without warnings. */
  lemma ForgottenFailureExample(p: RetryPolicy, x: RuntimeItem, y: RuntimeItem, error: string)
    returns (first: LegRecord, second: LegRecord)
    requires p.maxRetries == 0
    ensures CompletedHistory(p, [x, y], [first, second], 1)
    ensures first.after.failed == 1 && second.status == Completed && second.after.failed == 0
    ensures LosesNothing([first, second], 2, 2)
  {
    hide IsLeg, IsRateLimitError, ResumeStart, Count, IsVisit, KindOf;
    var hit := if IsRateLimitError(error) then Some(0.0) else None;
    var u, v := Fetched(x, [Call(x, 0.0, Raised(error))], hit), Plain(y, 60.0);
    first := LegRecord(1, None, [u], Left(2, 0, [u]), Cancelled, true);
    second := LegRecord(1, first.after.checkpoint, [v], Left(2, 1, [v]), Completed, false);
    PlainIsVisit(p, y, 60.0);
    FailedIsVisit(p, x, error, hit);
    CountFew(u, u);
    CountFew(v, v);
    assert [x, y][0..1] == [x] && [x, y][1..2] == [y];
    ShortLeg(p, [x, y], first);
    ShortLeg(p, [x, y], second);
  }

  lemma {:induction false} TotalIsZeroIff(legs: seq<LegRecord>, ending: Ending)
    ensures Total(legs, ending) == 0 <==> forall i :: 0 <= i < |legs| ==> Counted(legs[i].after, ending) == 0
  {
    hide Counted;
    if legs != [] {
      TotalIsZeroIff(legs[..|legs| - 1], ending);
      assert legs == legs[..|legs| - 1] + [legs[|legs| - 1]];
    }
  }

  /** Exactly when the final status is right about the whole job, that is, when it says warnings if
      and only if some leg failed an item: when the last leg failed one, or no earlier leg did. */
  lemma FinalStatusIff(p: RetryPolicy, items: seq<RuntimeItem>, legs: seq<LegRecord>)
    requires History(p, items, legs) && IsFinished(legs[|legs| - 1].status)
    ensures var last := legs[|legs| - 1];
            (last.status == CompletedWithWarnings <==> Total(legs, Failure) > 0)
            <==> last.after.failed > 0 || forall i :: 0 <= i < |legs| - 1 ==> legs[i].after.failed == 0
  {
    hide History, IsFinished, Total;
    StatusOfLast(p, items, legs);
    TotalIsZeroIff(legs, Failure);
    assert forall i :: 0 <= i < |legs| ==> Counted(legs[i].after, Failure) == legs[i].after.failed;
  }

  lemma StatusOfLast(p: RetryPolicy, items: seq<RuntimeItem>, legs: seq<LegRecord>)
    requires History(p, items, legs) && IsFinished(legs[|legs| - 1].status)
    ensures legs != [] && (legs[|legs| - 1].status == CompletedWithWarnings <==> legs[|legs| - 1].after.failed > 0)
  {
    hide IsLeg;
    LegConservation(p, items, legs[|legs| - 1]);
  }

  lemma FailedIsVisit(p: RetryPolicy, item: RuntimeItem, error: string, hit: Option<real>)
    requires p.maxRetries == 0 && (hit.Some? <==> IsRateLimitError(error)) && (hit.Some? ==> hit.value >= 0.0)
    ensures var v := Fetched(item, [Call(item, 0.0, Raised(error))], hit);
            IsVisit(p, v) && KindOf(v) in {Failing, Limiting}
  {
    hide IsRateLimitError, IsRetryable;
  }
}
