/** The checkpointed batch loop (src/decision_system/connectors/batch_processor.py) over the
    retry policy, the rate limiter and the job record it updates. */
module Batches {
  import opened Prelude
  import opened Retry
  import opened RateLimits

  datatype Status = Queued | Running | Completed | CompletedWithWarnings | Failed | Cancelled | Paused

  datatype Checkpoint = Checkpoint(processed: nat, batch: nat, total: nat)

  /** What happened when the loop came to an item: it was held back by the rate limiter, or it
      was fetched by a run of calls, after which a rate-limit failure was recorded, at time `hit`, or
      not. */
  datatype Visit =
    | Held(item: RuntimeItem, at: real)
    | Fetched(item: RuntimeItem, calls: seq<Call>, hit: Option<real>)

  ghost predicate IsVisit(p: RetryPolicy, v: Visit) {
    v.Fetched? ==>
      && p.IsRun(v.calls, v.item)
      && (v.hit.Some? <==> Outcome(v.calls).Raised? && IsRateLimitError(Outcome(v.calls).error))
      && (v.hit.Some? ==> forall k :: 0 <= k < |v.calls| ==> v.calls[k].at <= v.hit.value)
  }

  /** What became of a visited item: held back, imported, skipped as empty, failed, or failed
      with a rate-limit error. */
  datatype Kind = Holding | Importing | Skipping | Failing | Limiting

  function KindOf(v: Visit): Kind {
    if v.Held? then Holding
    else if Outcome(v.calls).Usable? then Importing
    else if Outcome(v.calls).Blank? then Skipping
    else if v.hit.Some? then Limiting
    else Failing
  }

  function Count(visits: seq<Visit>, kind: Kind): nat {
    if visits == [] then 0
    else Count(visits[..|visits| - 1], kind) + if KindOf(visits[|visits| - 1]) == kind then 1 else 0
  }

  /** All failures, rate-limit errors among them. */
  function Failures(visits: seq<Visit>): nat {
    Count(visits, Failing) + Count(visits, Limiting)
  }

  function Processed(visits: seq<Visit>): nat {
    Count(visits, Importing) + Count(visits, Skipping) + Failures(visits)
  }

  lemma CountAppend(visits: seq<Visit>, v: Visit, kind: Kind)
    ensures Count(visits + [v], kind) == Count(visits, kind) + if KindOf(v) == kind then 1 else 0
  {
    assert (visits + [v])[..|visits|] == visits;
  }

  lemma {:induction false} CountConcat(a: seq<Visit>, b: seq<Visit>, kind: Kind)
    ensures Count(a + b, kind) == Count(a, kind) + Count(b, kind)
  {
    hide KindOf;
    if b == [] {
      assert a + b == a;
    } else {
      var c, v := b[..|b| - 1], b[|b| - 1];
      assert a + b == (a + c) + [v];
      CountConcat(a, c, kind);
      CountAppend(a + c, v, kind);
    }
  }

  /** Two kinds are counted as one property, if it is theirs. */
  lemma {:induction false} CountsAs(visits: seq<Visit>, a: Kind, b: Kind, has: Visit -> bool)
    requires forall k :: 0 <= k < |visits| ==> (has(visits[k]) <==> KindOf(visits[k]) == a || KindOf(visits[k]) == b)
    ensures Number(visits, has) == Count(visits, a) + if a == b then 0 else Count(visits, b)
  {
    hide KindOf, Number;
    if visits == [] {
      assert Number([], has) == 0 by { NoneHas(has); }
    } else {
      CountsAs(visits[..|visits| - 1], a, b, has);
      NumberNext(visits, has);
    }
  }

  ghost predicate WasFetched(v: Visit) { v.Fetched? }

  ghost predicate EndsUsable(v: Visit) { v.Fetched? && Outcome(v.calls) == Usable }

  ghost predicate EndsBlank(v: Visit) { v.Fetched? && Outcome(v.calls) == Blank }

  ghost predicate EndsRaised(v: Visit) { v.Fetched? && Outcome(v.calls).Raised? }

  /** Held back, or the last call raised a rate-limit error. */
  ghost predicate IsLimited(v: Visit) {
    v.Held? || (Outcome(v.calls).Raised? && IsRateLimitError(Outcome(v.calls).error))
  }

  /** What the counters of a leg count, said by what was called and answered. */
  ghost predicate CountersTell(after: Counters, offset: nat, visits: seq<Visit>) {
    && after.processed == offset + Number(visits, WasFetched)
    && after.imported == Number(visits, EndsUsable)
    && after.skipped == Number(visits, EndsBlank)
    && after.failed == Number(visits, EndsRaised)
    && after.rateLimited == Number(visits, IsLimited)
  }

  lemma CountersTellAll(p: RetryPolicy, total: nat, offset: nat, visits: seq<Visit>, after: Counters)
    requires Adds(after, total, offset, visits) && forall k :: 0 <= k < |visits| ==> IsVisit(p, visits[k])
    ensures CountersTell(after, offset, visits)
  {
    forall k | 0 <= k < |visits| ensures IsLimited(visits[k]) <==> KindOf(visits[k]) in {Holding, Limiting} {
      assert IsVisit(p, visits[k]);
    }
    hide IsRateLimitError, Outcome, IsVisit, Count, Number;
    CountsAs(visits, Importing, Importing, EndsUsable);
    CountsAs(visits, Skipping, Skipping, EndsBlank);
    CountsAs(visits, Failing, Limiting, EndsRaised);
    CountsAs(visits, Holding, Limiting, IsLimited);
    FetchedNumber(visits);
  }

  lemma {:induction false} FetchedNumber(visits: seq<Visit>)
    ensures Number(visits, WasFetched) == Processed(visits)
  {
    hide Number;
    if visits == [] {
      NoneHas(WasFetched);
    } else {
      FetchedNumber(visits[..|visits| - 1]);
      NumberNext(visits, WasFetched);
    }
  }

  /** Every visited item is either held or processed. */
  lemma {:induction false} CountTotal(visits: seq<Visit>)
    ensures |visits| == Count(visits, Holding) + Processed(visits)
  {
    if visits != [] {
      CountTotal(visits[..|visits| - 1]);
    }
  }

  /** All calls of the fetch function, in order. */
  ghost function CallsOf(visits: seq<Visit>): seq<Call> {
    if visits == [] then []
    else
      var v := visits[|visits| - 1];
      CallsOf(visits[..|visits| - 1]) + if v.Fetched? then v.calls else []
  }

  lemma CallsAppend(visits: seq<Visit>, v: Visit)
    ensures CallsOf(visits + [v]) == CallsOf(visits) + if v.Fetched? then v.calls else []
  {
    assert (visits + [v])[..|visits|] == visits;
  }

  lemma {:induction false} CallsConcat(a: seq<Visit>, b: seq<Visit>)
    ensures CallsOf(a + b) == CallsOf(a) + CallsOf(b)
  {
    if b == [] {
      assert a + b == a;
    } else {
      assert (a + b)[..|a + b| - 1] == a + b[..|b| - 1];
      CallsConcat(a, b[..|b| - 1]);
    }
  }

  /** The retry bound carried through the batch loop: a leg makes at most one run of calls for
      each item it processes. */
  lemma {:induction false} CallBound(p: RetryPolicy, visits: seq<Visit>)
    requires forall i :: 0 <= i < |visits| ==> IsVisit(p, visits[i])
    ensures |CallsOf(visits)| <= p.RetryBound() * Processed(visits) <= p.RetryBound() * |visits|
  {
    if visits != [] {
      var rest, v := visits[..|visits| - 1], visits[|visits| - 1];
      CallBound(p, rest);
      assert IsVisit(p, v);
      assert Processed(visits) == Processed(rest) + if v.Held? then 0 else 1;
      assert v.Fetched? ==> |v.calls| <= p.RetryBound();
      ProductBound(p.RetryBound(), Processed(rest), |rest|);
    }
  }

  lemma ProductBound(k: nat, m: nat, n: nat)
    requires k * m <= k * n
    ensures k * m <= k * (m + 1) == k * m + k <= k * (n + 1)
  {
  }

  /** The progress fields of a job record. */
  datatype Counters = Counters(
    total: nat, processed: nat, imported: nat, skipped: nat, failed: nat, rateLimited: nat,
    currentBatch: nat, checkpoint: Option<Checkpoint>)
  {
    /** The percentage shown to the user; an empty job divides by one. */
    function PercentComplete(): real {
      processed as real / (if total == 0 then 1.0 else total as real) * 100.0
    }
  }

  /** The number a resumed leg starts from. */
  function Offset(checkpoint: Option<Checkpoint>): nat {
    if checkpoint.Some? then checkpoint.value.processed else 0
  }

  /** The first batch start that is not below the offset: where a leg starts. */
  function ResumeStart(offset: nat, b: int): nat {
    if b <= 0 then offset else (offset + b - 1) / b * b
  }

  lemma Quotient(n: nat, b: nat)
    requires b > 0
    ensures n / b * b <= n < n / b * b + b
  {
  }

  lemma Multiples(b: nat, m: nat, n: nat)
    ensures m <= n ==> m * b <= n * b
    ensures m < n ==> m * b + b <= n * b
  {
    var d := n - m;
    assert n * b == m * b + d * b;
    if d > 0 {
      assert d * b == b + (d - 1) * b;
    }
  }

  /** `ResumeStart` is the least multiple of the batch size that is not below the offset. */
  lemma LeastBatchStart(offset: nat, b: nat, k: nat)
    requires b > 0
    ensures offset <= ResumeStart(offset, b) < offset + b
    ensures k * b < offset ==> k * b + b <= ResumeStart(offset, b)
    ensures offset <= k * b ==> ResumeStart(offset, b) <= k * b
  {
    var q := (offset + b - 1) / b;
    Quotient(offset + b - 1, b);
    Multiples(b, k, q);
    Multiples(b, q, k);
    Multiples(b, k + 1, q);
    assert k * b + b == (k + 1) * b;
  }

  /** The number of batches of a list; an empty list has one, which is empty. */
  function BatchCount(total: nat, b: nat): (n: nat)
    requires b > 0
    ensures n >= 1
  {
    if total == 0 then 1 else (total + b - 1) / b
  }

  /** Where batch number `n` ends, and the next one starts, if the list is long enough. */
  function BatchEnd(n: nat, b: nat): nat { n * b }

  lemma FirstBatch(b: nat)
    ensures BatchEnd(0, b) == 0
  {
  }

  lemma BatchStarts(b: nat, total: nat, n: nat, offset: nat)
    requires b > 0 && n >= 1
    ensures BatchEnd(n - 1, b) + b == BatchEnd(n, b)
    ensures n <= BatchCount(total, b) ==> BatchEnd(n - 1, b) < total || total == 0
    ensures n >= BatchCount(total, b) ==> BatchEnd(n, b) >= total
    ensures offset <= ResumeStart(offset, b)
    ensures BatchEnd(n - 1, b) < offset ==> BatchEnd(n, b) <= ResumeStart(offset, b)
    ensures offset <= BatchEnd(n - 1, b) ==> ResumeStart(offset, b) <= BatchEnd(n - 1, b)
  {
    LeastBatchStart(offset, b, n - 1);
    Quotient(total + b - 1, b);
    Multiples(b, n, (total + b - 1) / b);
    Multiples(b, (total + b - 1) / b, n);
    Multiples(b, n - 1, n);
    assert n * b == (n - 1) * b + b;
  }

  /** The progress one call of `process_items` reports, given the visits it made: counters start
      from zero, the processed count from the checkpoint, and the checkpoint left behind names
      the batch boundary that was reached. With a negative batch size there is at most one batch, which
      is cut off at that many items before the end of the list. */
  ghost predicate Progress(b: int, total: nat, before: Option<Checkpoint>, visits: seq<Visit>, after: Counters) {
    var start := ResumeStart(Offset(before), b);
    && Adds(after, total, Offset(before), visits)
    && (visits == [] ==> after.checkpoint == before && after.currentBatch == 0)
    && (visits != [] ==>
          && b != 0
          && after.checkpoint == Some(Checkpoint(after.processed, after.currentBatch, total))
          && (b > 0 ==> start < start + |visits| == Min(BatchEnd(after.currentBatch, b), total))
          && (b < 0 ==> start == 0 && |visits| == total + b && after.currentBatch == 1))
  }

  /** The counters after some visits, when the processed count started from `offset`. Held items
      and rate-limit failures are counted together. */
  ghost predicate Adds(after: Counters, total: nat, offset: nat, visits: seq<Visit>) {
    && after.total == total
    && after.processed == offset + Processed(visits)
    && after.imported == Count(visits, Importing)
    && after.skipped == Count(visits, Skipping)
    && after.failed == Failures(visits)
    && after.rateLimited == Count(visits, Holding) + Count(visits, Limiting)
  }

  /** What one batch adds to a job. */
  ghost predicate Advanced(before: Counters, made: seq<Visit>, batchNum: nat, after: Counters) {
    && after.total == before.total
    && after.processed == before.processed + Processed(made)
    && after.imported == before.imported + Count(made, Importing)
    && after.skipped == before.skipped + Count(made, Skipping)
    && after.failed == before.failed + Failures(made)
    && after.rateLimited == before.rateLimited + Count(made, Holding) + Count(made, Limiting)
    && after.currentBatch == batchNum
    && after.checkpoint == Some(Checkpoint(after.processed, batchNum, after.total))
  }

  /** Progress is kept by one more batch. */
  lemma ProgressStep(b: nat, total: nat, start: Option<Checkpoint>, visits: seq<Visit>, made: seq<Visit>,
                     batchNum: nat, before: Counters, after: Counters)
    requires Progress(b, total, start, visits, before) && Advanced(before, made, batchNum, after)
    requires b > 0 && made != []
    requires ResumeStart(Offset(start), b) + |visits| + |made| == Min(BatchEnd(batchNum, b), total)
    ensures Progress(b, total, start, visits + made, after)
  {
    hide Count, ResumeStart;
    forall kind ensures Count(visits + made, kind) == Count(visits, kind) + Count(made, kind) {
      CountConcat(visits, made, kind);
    }
  }

  lemma CutProgress(b: int, total: nat, start: Option<Checkpoint>, made: seq<Visit>, before: Counters, after: Counters)
    requires b < 0 && Offset(start) == 0 && |made| == total + b && made != []
    requires Progress(b, total, start, [], before) && Advanced(before, made, 1, after)
    ensures Progress(b, total, start, made, after)
  {
    hide Count;
    assert forall kind :: Count([], kind) == 0 by { NoneCount(); }
  }

  lemma NoneCount()
    ensures forall kind :: Count([], kind) == 0
  {
  }

  /** How a call of `process_items` that did not raise ends, given where its last visit was. */
  ghost predicate Ended(b: int, after: Counters, visits: seq<Visit>, stop: nat, status: Status, cancelRequested: bool) {
    match status
    case Completed => Through(b, after.total, visits, stop) && after.failed == 0
    case CompletedWithWarnings => Through(b, after.total, visits, stop) && after.failed > 0
    case Cancelled => b != 0 && cancelRequested && (visits == [] || stop < after.total)
    case _ => false
  }

  /** The loop has gone through its batches: to the end of the list, or, with a negative batch size,
      through the only batch, unless that is empty or lies before the offset. */
  ghost predicate Through(b: int, total: nat, visits: seq<Visit>, stop: nat) {
    && b != 0
    && (b > 0 ==> stop >= total)
    && (b < 0 && visits == [] ==> stop > 0 || total + b <= 0)
  }

  /** A leg of an import job: the checkpoint it started from, what it visited, and what it left. */
  datatype LegRecord = LegRecord(
    b: int, before: Option<Checkpoint>, visits: seq<Visit>, after: Counters, status: Status, cancelRequested: bool)
  {
    function Start(): nat { ResumeStart(Offset(before), b) }

    function Stop(): nat { Start() + |visits| }
  }

  /** What every leg satisfies. */
  ghost predicate IsLeg(p: RetryPolicy, items: seq<RuntimeItem>, leg: LegRecord) {
    && Progress(leg.b, |items|, leg.before, leg.visits, leg.after)
    && (leg.visits != [] ==> leg.Stop() <= |items| && VisitsOf(p, items[leg.Start()..leg.Stop()], leg.visits))
    && (leg.status == Failed || Ended(leg.b, leg.after, leg.visits, leg.Stop(), leg.status, leg.cancelRequested))
  }

  /** What the looks at the cancellation flag and the calls of the progress callback brought, from some
      moment on. */
  datatype Answers = Answers(looks: seq<bool>, callbacks: seq<bool>)
  {
    ghost predicate Before(later: Answers) {
      looks <= later.looks && callbacks <= later.callbacks
    }

    /** Those that came after some earlier ones. */
    ghost function Since(before: Answers): Answers
      requires before.Before(this)
    {
      Answers(looks[|before.looks|..], callbacks[|before.callbacks|..])
    }

    ghost function Look(asked: bool): Answers { Answers(looks + [asked], callbacks) }

    ghost function Callback(raises: bool): Answers { Answers(looks, callbacks + [raises]) }
  }

  /** Every answer but the last was no. */
  ghost predicate OnlyLast(answers: seq<bool>) {
    forall i :: 0 <= i < |answers| - 1 ==> !answers[i]
  }

  ghost predicate LastYes(answers: seq<bool>) {
    answers != [] && answers[|answers| - 1]
  }

  /** The loop looks at the flag once before each batch, skipped or not, and calls the callback once after
      each batch it visits; the first yes ends it. */
  ghost predicate Asked(b: int, start: nat, flag: bool, a: Answers, none: bool, batch: nat, raised: bool, cancelled: bool) {
    && OnlyLast(a.looks) && OnlyLast(a.callbacks)
    && (LastYes(a.looks) ==> cancelled) && (cancelled ==> flag || LastYes(a.looks))
    && (flag && b != 0 ==> cancelled && none)
    && (LastYes(a.callbacks) <==> raised && b != 0)
    && (a.callbacks == [] <==> none)
    && (!none ==>
          && |a.callbacks| <= batch
          && (if b > 0 then BatchEnd(batch - |a.callbacks|, b) == start else |a.callbacks| == 1)
          && |a.looks| >= batch + (if cancelled then 1 else 0)
          && (b > 0 ==> |a.looks| == batch + if cancelled then 1 else 0))
  }

  /** What has been asked when the batch with the given number comes next. */
  ghost predicate Asking(b: int, start: nat, a: Answers, none: bool, batch: nat, batchNum: nat) {
    && |a.looks| + 1 == batchNum
    && (forall i :: 0 <= i < |a.looks| ==> !a.looks[i])
    && (forall i :: 0 <= i < |a.callbacks| ==> !a.callbacks[i])
    && (a.callbacks == [] <==> none)
    && (!none ==>
          && 1 <= batch && |a.callbacks| <= batch
          && (if b > 0 then BatchEnd(batch - |a.callbacks|, b) == start else |a.callbacks| == 1)
          && (b > 0 ==> batch + 1 == batchNum) && (b < 0 ==> batch < batchNum))
  }

  /** The loop so far, and a loop that has ended, between two moments. */
  ghost predicate OnTheWay(b: int, start: nat, before: Answers, now: Answers, none: bool, batch: nat, batchNum: nat) {
    before.Before(now) && Asking(b, start, now.Since(before), none, batch, batchNum)
  }

  ghost predicate Arrived(b: int, start: nat, flag: bool, before: Answers, now: Answers, none: bool, batch: nat, raised: bool, cancelled: bool) {
    before.Before(now) && Asked(b, start, flag, now.Since(before), none, batch, raised, cancelled)
  }

  lemma NothingAsked(b: int, start: nat, now: Answers)
    ensures forall batch :: OnTheWay(b, start, now, now, true, batch, 1)
    ensures forall flag, batch :: b == 0 ==> Arrived(b, start, flag, now, now, true, batch, true, false)
  {
  }

  lemma SinceMore(before: Answers, now: Answers, answer: bool)
    requires before.Before(now)
    ensures before.Before(now.Look(answer)) && now.Look(answer).Since(before) == now.Since(before).Look(answer)
    ensures before.Before(now.Callback(answer)) && now.Callback(answer).Since(before) == now.Since(before).Callback(answer)
  {
  }

  /** A look that brings no, at a batch that is skipped. */
  lemma AskedOnce(b: int, start: nat, before: Answers, now: Answers, none: bool, batch: nat, batchNum: nat)
    requires OnTheWay(b, start, before, now, none, batch, batchNum) && (none || b < 0)
    ensures OnTheWay(b, start, before, now.Look(false), none, batch, batchNum + 1)
  {
    SinceMore(before, now, false);
  }

  /** The same at a batch that is visited. */
  lemma AskedTwice(b: int, start: nat, before: Answers, now: Answers, none: bool, batch: nat, batchNum: nat, raises: bool)
    requires OnTheWay(b, start, before, now, none, batch, batchNum) && b != 0 && batchNum >= 1
    requires if b > 0 then none ==> BatchEnd(batchNum - 1, b) == start else none
    ensures var now' := now.Look(false).Callback(raises);
            if raises then Arrived(b, start, false, before, now', false, batchNum, true, false)
            else OnTheWay(b, start, before, now', false, batchNum, batchNum + 1)
  {
    hide BatchEnd;
    SinceMore(before, now, false);
    SinceMore(before, now.Look(false), raises);
  }

  lemma AskedCancel(b: int, start: nat, flag: bool, before: Answers, now: Answers, none: bool, batch: nat, batchNum: nat, look: bool)
    requires OnTheWay(b, start, before, now, none, batch, batchNum) && b != 0 && (flag || look) && (flag ==> none)
    ensures Arrived(b, start, flag, before, now.Look(look), none, batch, false, true)
  {
    hide BatchEnd;
    SinceMore(before, now, look);
  }

  lemma AskedAll(b: int, start: nat, before: Answers, now: Answers, none: bool, batch: nat, batchNum: nat)
    requires OnTheWay(b, start, before, now, none, batch, batchNum) && b != 0
    ensures Arrived(b, start, false, before, now, none, batch, false, false)
  {
    hide BatchEnd;
  }

  class Job {
    const jobId: string
    const connectorId: string
    var status: Status
    var totalItems: nat
    var itemsFound: nat
    var processedItems: nat
    var itemsImported: nat
    var itemsSkipped: nat
    var itemsFailed: nat
    var rateLimitedItems: nat
    var currentBatch: nat
    var cancelRequested: bool
    var checkpoint: Option<Checkpoint>

    constructor (jobId: string, connectorId: string)
      ensures status == Queued && !cancelRequested && checkpoint == None && processedItems == 0
      ensures this.jobId == jobId && this.connectorId == connectorId
    {
      this.jobId, this.connectorId := jobId, connectorId;
      status, totalItems, itemsFound, processedItems := Queued, 0, 0, 0;
      itemsImported, itemsSkipped, itemsFailed, rateLimitedItems := 0, 0, 0, 0;
      currentBatch, cancelRequested, checkpoint := 0, false, None;
    }

    ghost function Snapshot(): Counters
      reads this`totalItems, this`processedItems, this`itemsImported, this`itemsSkipped, this`itemsFailed,
            this`rateLimitedItems, this`currentBatch, this`checkpoint
    {
      Counters(totalItems, processedItems, itemsImported, itemsSkipped, itemsFailed,
                       rateLimitedItems, currentBatch, checkpoint)
    }
  }

  /** The counters of one batch. */
  class BatchResult {
    var itemsProcessed: nat
    var itemsImported: nat
    var itemsSkipped: nat
    var itemsFailed: nat
    var itemsRateLimited: nat

    constructor ()
      ensures Counts([])
    {
      itemsProcessed, itemsImported, itemsSkipped := 0, 0, 0;
      itemsFailed, itemsRateLimited := 0, 0;
    }

    ghost predicate Counts(visits: seq<Visit>)
      reads this
    {
      && itemsProcessed == Processed(visits)
      && itemsImported == Count(visits, Importing)
      && itemsSkipped == Count(visits, Skipping)
      && itemsFailed == Failures(visits)
      && itemsRateLimited == Count(visits, Holding) + Count(visits, Limiting)
    }

    /** Counting one more item. */
    method Add(kind: Kind, ghost visits: seq<Visit>, ghost v: Visit)
      requires Counts(visits) && KindOf(v) == kind
      modifies this
      ensures Counts(visits + [v])
    {
      hide KindOf, Count;
      forall k ensures Count(visits + [v], k) == Count(visits, k) + if kind == k then 1 else 0 {
        CountAppend(visits, v, k);
      }
      if kind != Holding {
        itemsProcessed := itemsProcessed + 1;
      }
      match kind {
        case Holding =>
          itemsRateLimited := itemsRateLimited + 1;
        case Importing =>
          itemsImported := itemsImported + 1;
        case Skipping =>
          itemsSkipped := itemsSkipped + 1;
        case Failing =>
          itemsFailed := itemsFailed + 1;
        case Limiting =>
          itemsFailed := itemsFailed + 1;
          itemsRateLimited := itemsRateLimited + 1;
      }
    }
  }

  /** The items of a batch, each visited once and in order. */
  ghost predicate VisitsOf(p: RetryPolicy, items: seq<RuntimeItem>, visits: seq<Visit>) {
    && |visits| == |items|
    && forall i :: 0 <= i < |items| ==> visits[i].item == items[i] && IsVisit(p, visits[i])
  }

  /** Visits of two adjacent stretches of the list are visits of both together. */
  lemma VisitsOfConcat(p: RetryPolicy, items: seq<RuntimeItem>, start: nat, a: seq<Visit>, b: seq<Visit>)
    requires start + |a| + |b| <= |items|
    requires VisitsOf(p, items[start..start + |a|], a)
    requires VisitsOf(p, items[start + |a|..start + |a| + |b|], b)
    ensures VisitsOf(p, items[start..start + |a + b|], a + b)
  {
    assert items[start..start + |a + b|] == items[start..start + |a|] + items[start + |a|..start + |a| + |b|];
  }

  lemma VisitsOfAppend(p: RetryPolicy, items: seq<RuntimeItem>, visits: seq<Visit>, item: RuntimeItem, v: Visit)
    requires VisitsOf(p, items, visits) && v.item == item && IsVisit(p, v)
    ensures VisitsOf(p, items + [item], visits + [v])
  {
  }

  /** A visit made on behalf of a connector. */
  datatype Entry = Entry(connector: string, visit: Visit)

  ghost function Entries(connector: string, visits: seq<Visit>): (r: seq<Entry>)
    ensures |r| == |visits|
  {
    seq(|visits|, i requires 0 <= i < |visits| => Entry(connector, visits[i]))
  }

  lemma EntriesAppend(connector: string, visits: seq<Visit>, v: Visit)
    ensures Entries(connector, visits + [v]) == Entries(connector, visits) + [Entry(connector, v)]
  {
  }

  lemma EntriesConcat(connector: string, a: seq<Visit>, b: seq<Visit>)
    ensures Entries(connector, a + b) == Entries(connector, a) + Entries(connector, b)
  {
  }

  /** A fetch made for the connector of a recorded rate-limit failure comes 60 seconds later. */
  ghost predicate Spaced(earlier: Entry, later: Entry) {
    earlier.connector == later.connector && earlier.visit.Fetched? && earlier.visit.hit.Some? && later.visit.Fetched? ==>
      forall k :: 0 <= k < |later.visit.calls| ==>
                    later.visit.calls[k].at >= earlier.visit.hit.value + DEFAULT_RETRY_AFTER
  }

  /** After a rate-limit failure is recorded at time t, nothing is fetched for that connector
      before t + 60 seconds. */
  ghost predicate WindowsRespected(journal: seq<Entry>) {
    forall i, j :: 0 <= i < j < |journal| ==> Spaced(journal[i], journal[j])
  }

  /** The limiter still holds the latest recorded failure of each connector. */
  ghost predicate HitsKnown(journal: seq<Entry>, log: seq<Event>, now: real) {
    forall i :: 0 <= i < |journal| && journal[i].visit.Fetched? && journal[i].visit.hit.Some? ==>
                  var w := Window(log, journal[i].connector);
                  && w.Some? && w.value.1 == DEFAULT_RETRY_AFTER
                  && journal[i].visit.hit.value <= w.value.0 <= now
  }

  /** The rate-limit failures of a journal, as the limiter is told of them. */
  ghost function HitsOf(journal: seq<Entry>): seq<Event> {
    if journal == [] then []
    else
      var e := journal[|journal| - 1];
      HitsOf(journal[..|journal| - 1])
      + if e.visit.Fetched? && e.visit.hit.Some? then [Opened(e.connector, e.visit.hit.value, DEFAULT_RETRY_AFTER)] else []
  }

  lemma HitsAppend(journal: seq<Entry>, e: Entry)
    ensures HitsOf(journal + [e]) == HitsOf(journal) +
            if e.visit.Fetched? && e.visit.hit.Some? then [Opened(e.connector, e.visit.hit.value, DEFAULT_RETRY_AFTER)] else []
  {
    assert (journal + [e])[..|journal|] == journal;
  }

  /** An item is held back only while a window is open, opened by an event from before or by a failure
      that stands earlier in the journal. */
  ghost predicate HoldsCaused(journal: seq<Entry>, before: seq<Event>) {
    forall j :: 0 <= j < |journal| && journal[j].visit.Held? ==>
                  LimitedAt(before + HitsOf(journal[..j]), journal[j].connector, journal[j].visit.at)
  }

  ghost predicate AllVisits(p: RetryPolicy, journal: seq<Entry>) {
    forall j :: 0 <= j < |journal| ==> IsVisit(p, journal[j].visit)
  }

  /** The guarantee of the limiter: once a call for a connector fails with a rate-limit error, and it is
      not retried, no later visit calls for that connector within 60 seconds of the failing call. */
  lemma NoCallWithinWindow(p: RetryPolicy, journal: seq<Entry>, i: nat, j: nat, k: nat)
    requires WindowsRespected(journal) && AllVisits(p, journal) && i < j < |journal|
    requires journal[i].connector == journal[j].connector
    requires var v := journal[i].visit;
             v.Fetched? && v.calls != [] && Outcome(v.calls).Raised? && IsRateLimitError(Outcome(v.calls).error)
    requires journal[j].visit.Fetched? && k < |journal[j].visit.calls|
    ensures var calls := journal[i].visit.calls;
            journal[j].visit.calls[k].at >= calls[|calls| - 1].at + 60.0
  {
    hide IsRateLimitError, RetryPolicy.IsRun;
    assert IsVisit(p, journal[i].visit);
    assert Spaced(journal[i], journal[j]);
  }

  /** A window that is open was opened by a failure in the journal, less than 60 seconds ago. */
  lemma {:induction false} WindowHasHit(journal: seq<Entry>, connector: string, now: real) returns (i: nat)
    requires LimitedAt(HitsOf(journal), connector, now)
    ensures i < |journal| && journal[i].connector == connector && journal[i].visit.Fetched? && journal[i].visit.hit.Some?
    ensures now - journal[i].visit.hit.value < DEFAULT_RETRY_AFTER
  {
    var rest, e := journal[..|journal| - 1], journal[|journal| - 1];
    if e.visit.Fetched? && e.visit.hit.Some? {
      WindowAppend(HitsOf(rest), Opened(e.connector, e.visit.hit.value, DEFAULT_RETRY_AFTER), connector);
      if e.connector == connector {
        i := |journal| - 1;
      } else {
        i := WindowHasHit(rest, connector, now);
      }
    } else {
      assert HitsOf(journal) == HitsOf(rest) + [] == HitsOf(rest);
      i := WindowHasHit(rest, connector, now);
    }
  }

  /** With a limiter that has been told nothing before, every item that is held back comes less than 60
      seconds after an earlier rate-limit failure of its connector. */
  lemma HoldHasHit(journal: seq<Entry>, j: nat) returns (i: nat)
    requires HoldsCaused(journal, []) && j < |journal| && journal[j].visit.Held?
    ensures i < j && journal[i].connector == journal[j].connector && journal[i].visit.Fetched? && journal[i].visit.hit.Some?
    ensures journal[j].visit.at - journal[i].visit.hit.value < 60.0
  {
    assert [] + HitsOf(journal[..j]) == HitsOf(journal[..j]);
    i := WindowHasHit(journal[..j], journal[j].connector, journal[j].visit.at);
  }

  /** A rate-limit failure is noted with the connector and the address of the item. */
  ghost predicate Noted(before: seq<RateLimitRecord>, after: seq<RateLimitRecord>, connector: string, v: Visit) {
    if v.Fetched? && v.hit.Some? then
      && |after| == |before| + 1 && before <= after
      && after[|before|].connector == connector && after[|before|].retryAfter == 60.0 && after[|before|].sourceUrl == v.item.sourceUrl
    else after == before
  }

  class BatchProcessor {
    var batchSize: int
    const policy: RetryPolicy
    const limiter: RateLimiter
    const remote: Remote
    /** What the limiter had been told before. */
    ghost const firstLog: seq<Event>
    ghost var journal: seq<Entry>

    ghost predicate Valid()
      reads this`journal, limiter, remote`time
    {
      && limiter.Valid()
      && limiter.now <= remote.time
      && WindowsRespected(journal)
      && HitsKnown(journal, limiter.log, limiter.now)
      && Explained(journal, limiter.log)
    }

    /** The log of the limiter and the journal tell the same story, and every hold is part of it. */
    ghost predicate Explained(journal: seq<Entry>, log: seq<Event>) {
      log == firstLog + HitsOf(journal) && HoldsCaused(journal, firstLog) && AllVisits(policy, journal)
    }

    lemma ExplainedNext(journal: seq<Entry>, e: Entry, log: seq<Event>, log': seq<Event>)
      requires Explained(journal, log) && IsVisit(policy, e.visit)
      requires e.visit.Held? ==> LimitedAt(log, e.connector, e.visit.at)
      requires if e.visit.Fetched? && e.visit.hit.Some? then log' == log + [Opened(e.connector, e.visit.hit.value, DEFAULT_RETRY_AFTER)]
               else log' == log
      ensures Explained(journal + [e], log')
    {
      hide LimitedAt, IsVisit;
      HitsAppend(journal, e);
      var journal' := journal + [e];
      forall j | 0 <= j < |journal'| && journal'[j].visit.Held?
        ensures LimitedAt(firstLog + HitsOf(journal'[..j]), journal'[j].connector, journal'[j].visit.at)
      {
        if j < |journal| {
          assert journal'[..j] == journal[..j];
          assert LimitedAt(firstLog + HitsOf(journal[..j]), journal[j].connector, journal[j].visit.at);
        } else {
          assert journal'[..j] == journal;
        }
      }
      assert firstLog + (HitsOf(journal) + HitsOf(journal')[|HitsOf(journal)|..]) == log + HitsOf(journal')[|HitsOf(journal)|..];
    }

    constructor (batchSize: int, policy: RetryPolicy, limiter: RateLimiter, remote: Remote)
      requires limiter.Valid() && limiter.now <= remote.time
      ensures Valid() && journal == [] && firstLog == limiter.log
      ensures this.batchSize == batchSize && this.policy == policy
      ensures this.limiter == limiter && this.remote == remote
    {
      this.batchSize, this.policy, this.limiter, this.remote := batchSize, policy, limiter, remote;
      firstLog := limiter.log;
      journal := [];
    }

    /** Holding an item back does not touch the guarantee. */
    lemma HeldKeeps(journal: seq<Entry>, e: Entry, log: seq<Event>, now: real, now': real)
      requires WindowsRespected(journal) && HitsKnown(journal, log, now) && now <= now'
      requires e.visit.Held?
      ensures WindowsRespected(journal + [e]) && HitsKnown(journal + [e], log, now')
    {
    }

    /** Neither does fetching after the gate was found open. */
    lemma OpenGateKeeps(journal: seq<Entry>, e: Entry, log: seq<Event>, now: real, gate: real)
      requires WindowsRespected(journal) && HitsKnown(journal, log, now)
      requires e.visit.Fetched? && !LimitedAt(log, e.connector, gate)
      requires forall k :: 0 <= k < |e.visit.calls| ==> gate <= e.visit.calls[k].at
      ensures WindowsRespected(journal + [e])
    {
    }

    lemma HitKeeps(journal: seq<Entry>, e: Entry, log: seq<Event>, now: real, log': seq<Event>, now': real)
      requires HitsKnown(journal, log, now) && now <= now'
      requires e.visit.Fetched?
      requires match e.visit.hit
               case None => log' == log
               case Some(t) => now <= t <= now' && log' == log + [Opened(e.connector, t, DEFAULT_RETRY_AFTER)]
      ensures HitsKnown(journal + [e], log', now')
    {
      if e.visit.hit.Some? {
        forall c ensures Window(log', c) == if c == e.connector then Some((e.visit.hit.value, DEFAULT_RETRY_AFTER)) else Window(log, c) {
          WindowAppend(log, log'[|log|], c);
        }
      }
    }

    /** The check before each item. */
    method Gate(job: Job, item: RuntimeItem) returns (limited: bool, ghost at: real)
      requires Valid()
      modifies limiter, remote`time, remote`ticks
      ensures Valid() && limiter.log == old(limiter.log)
      ensures old(limiter.now) <= at <= remote.time
      ensures limited == LimitedAt(limiter.log, job.connectorId, at)
    {
      var t := remote.Now();
      var t' := remote.Now();
      limited := limiter.CheckRateLimited(job.connectorId, t, t');
      at := t;
      if limited {
        t' := remote.Now();
        var t'' := remote.Now();
        var left := limiter.GetRetryAfter(job.connectorId, t', t'');
      }
    }

    /** The fetch of one item behind an open gate. */
    method FetchItem(job: Job, item: RuntimeItem, ghost gate: real) returns (kind: Kind, ghost visit: Visit)
      requires Valid()
      requires gate <= remote.time && !LimitedAt(limiter.log, job.connectorId, gate)
      modifies this`journal, limiter, remote`time, remote`ticks, remote`asked, remote`calls, remote`sleeps, remote`drawn
      ensures Valid()
      ensures visit.Fetched? && visit.item == item && IsVisit(policy, visit) && KindOf(visit) == kind
      ensures kind == Limiting <==> Outcome(visit.calls).Raised? && IsRateLimitError(Outcome(visit.calls).error)
      ensures kind == Failing <==> Outcome(visit.calls).Raised? && !IsRateLimitError(Outcome(visit.calls).error)
      ensures journal == old(journal) + [Entry(job.connectorId, visit)]
      ensures remote.calls == old(remote.calls) + visit.calls
      ensures Noted(old(limiter.allRecords), limiter.allRecords, job.connectorId, visit)
    {
      hide WindowsRespected, HitsKnown, AllAgree, IsRetryable, IsRateLimitError, RetryPolicy.IsRun, Explained;
      var answer, attempts, calls := ExecuteWithRetry(policy, remote, item);
      visit := Fetched(item, calls, None);
      match answer {
        case Ok(a) =>
          kind := if a == Usable then Importing else Skipping;
        case Err(error) =>
          kind := Failing;
          if IsRateLimitError(error) {
            kind := Limiting;
            var at := remote.Now();
            var at' := remote.Now();
            limiter.Record429(job.connectorId, DEFAULT_RETRY_AFTER, NO_HEADERS, item.sourceUrl, at, at');
            visit := Fetched(item, calls, Some(at));
          }
      }
      ghost var e := Entry(job.connectorId, visit);
      OpenGateKeeps(journal, e, old(limiter.log), old(limiter.now), gate);
      HitKeeps(journal, e, old(limiter.log), old(limiter.now), limiter.log, limiter.now);
      ExplainedNext(journal, e, old(limiter.log), limiter.log);
      journal := journal + [e];
    }

    /** One item: the gate, the run of calls, and the record of a rate-limit failure. */
    method VisitItem(job: Job, item: RuntimeItem) returns (kind: Kind, ghost visit: Visit)
      requires Valid()
      modifies this`journal, limiter, remote`time, remote`ticks, remote`asked, remote`calls, remote`sleeps, remote`drawn
      ensures Valid()
      ensures visit.item == item && IsVisit(policy, visit) && KindOf(visit) == kind
      ensures journal == old(journal) + [Entry(job.connectorId, visit)]
      ensures remote.calls == old(remote.calls) + if visit.Fetched? then visit.calls else []
    {
      hide WindowsRespected, HitsKnown, AllAgree, IsRetryable, IsRateLimitError, Explained, LimitedAt;
      ghost var at;
      var limited;
      limited, at := Gate(job, item);
      if limited {
        kind := Holding;
        visit := Held(item, at);
        HeldKeeps(journal, Entry(job.connectorId, visit), limiter.log, limiter.now, limiter.now);
        ExplainedNext(journal, Entry(job.connectorId, visit), limiter.log, limiter.log);
        journal := journal + [Entry(job.connectorId, visit)];
      } else {
        kind, visit := FetchItem(job, item, at);
      }
    }

    /** A batch visits its items in order and counts what became of them. */
    method ProcessBatch(job: Job, items: seq<RuntimeItem>) returns (result: BatchResult, ghost visits: seq<Visit>)
      requires Valid()
      modifies this`journal, limiter, remote`time, remote`ticks, remote`asked, remote`calls, remote`sleeps, remote`drawn
      ensures Valid() && fresh(result)
      ensures VisitsOf(policy, items, visits)
      ensures result.Counts(visits)
      ensures Traced(job.connectorId, old(journal), old(remote.calls), visits)
    {
      hide Valid, KindOf, IsVisit, BatchResult.Counts, Entries, CallsOf, VisitsOf;
      NothingTraced(job.connectorId);
      assert items[..0] == [];
      result := new BatchResult();
      visits := [];
      for n := 0 to |items|
        invariant Valid() && fresh(result)
        invariant VisitsOf(policy, items[..n], visits)
        invariant result.Counts(visits)
        invariant Traced(job.connectorId, old(journal), old(remote.calls), visits)
      {
        ghost var before, calls := journal, remote.calls;
        var kind, visit := VisitItem(job, items[n]);
        result.Add(kind, visits, visit);
        TracedOne(job.connectorId, old(journal), old(remote.calls), visits, visit, before, calls);
        VisitsOfAppend(policy, items[..n], visits, items[n], visit);
        assert items[..n + 1] == items[..n] + [items[n]];
        visits := visits + [visit];
      }
      assert items[..|items|] == items;
    }

    /** One batch and the bookkeeping after it, up to the saved checkpoint. */
    method RunBatch(job: Job, batch: seq<RuntimeItem>, batchNum: nat) returns (ghost made: seq<Visit>)
      requires Valid()
      modifies this`journal, job`processedItems, job`itemsImported, job`itemsSkipped, job`itemsFailed
      modifies job`rateLimitedItems, job`currentBatch, job`checkpoint, limiter
      modifies remote`time, remote`ticks, remote`asked, remote`calls, remote`sleeps, remote`drawn
      ensures Valid()
      ensures VisitsOf(policy, batch, made)
      ensures Advanced(old(job.Snapshot()), made, batchNum, job.Snapshot())
      ensures Traced(job.connectorId, old(journal), old(remote.calls), made)
    {
      hide Valid, Count, CallsOf, Entries, VisitsOf;
      var r;
      r, made := ProcessBatch(job, batch);
      job.currentBatch := batchNum;
      job.processedItems := job.processedItems + r.itemsProcessed;
      job.itemsImported := job.itemsImported + r.itemsImported;
      job.itemsSkipped := job.itemsSkipped + r.itemsSkipped;
      job.itemsFailed := job.itemsFailed + r.itemsFailed;
      job.rateLimitedItems := job.rateLimitedItems + r.itemsRateLimited;
      job.checkpoint := Some(Checkpoint(job.processedItems, batchNum, job.totalItems));
    }

    /** Which visits have been made when the loop is about to look at the batch at `startIdx`. */
    ghost predicate Reached(items: seq<RuntimeItem>, start: nat, startIdx: nat, visits: seq<Visit>) {
      && (startIdx <= start ==> visits == [])
      && (startIdx > start ==> start < |items| && start + |visits| == Min(startIdx, |items|))
      && (visits != [] ==> start + |visits| <= |items| && VisitsOf(policy, items[start..start + |visits|], visits))
    }

    lemma ReachedStep(items: seq<RuntimeItem>, start: nat, startIdx: nat, visits: seq<Visit>, made: seq<Visit>)
      requires Reached(items, start, startIdx, visits) && start <= startIdx < |items|
      requires batchSize > 0
      requires VisitsOf(policy, items[startIdx..Min(startIdx + batchSize, |items|)], made)
      ensures start + |visits| == startIdx && start + |visits| + |made| == Min(startIdx + batchSize, |items|)
      ensures made != [] && Reached(items, start, startIdx + batchSize, visits + made)
    {
      assert |made| > 0;
      if visits != [] {
        VisitsOfConcat(policy, items, start, visits, made);
      } else {
        assert visits + made == made;
      }
    }

    /** The journal and the calls of the fetch function grew by exactly these visits. */
    ghost predicate Traced(connector: string, before: seq<Entry>, calls: seq<Call>, visits: seq<Visit>)
      reads this`journal, remote`calls
    {
      journal == before + Entries(connector, visits) && remote.calls == calls + CallsOf(visits)
    }

    /** Before the first item nothing has been visited. */
    lemma NothingTraced(connector: string)
      ensures Traced(connector, journal, remote.calls, []) && VisitsOf(policy, [], [])
    {
    }

    lemma TracedOne(connector: string, before: seq<Entry>, calls: seq<Call>, visits: seq<Visit>, v: Visit,
                    before': seq<Entry>, calls': seq<Call>)
      requires before' == before + Entries(connector, visits) && calls' == calls + CallsOf(visits)
      requires journal == before' + [Entry(connector, v)] && remote.calls == calls' + if v.Fetched? then v.calls else []
      ensures Traced(connector, before, calls, visits + [v])
    {
      CallsAppend(visits, v);
      EntriesAppend(connector, visits, v);
    }

    lemma TracedStep(connector: string, before: seq<Entry>, calls: seq<Call>, visits: seq<Visit>, made: seq<Visit>,
                     before': seq<Entry>, calls': seq<Call>)
      requires before' == before + Entries(connector, visits) && calls' == calls + CallsOf(visits)
      requires Traced(connector, before', calls', made)
      ensures Traced(connector, before, calls, visits + made)
    {
      CallsConcat(visits, made);
      EntriesConcat(connector, visits, made);
    }

    /** The start of a call of `process_items`: counters go to zero, the processed count to the
        checkpoint's. */
    method StartLeg(job: Job, total: nat) returns (startOffset: nat)
      modifies job
      ensures startOffset == old(Offset(job.checkpoint))
      ensures Progress(batchSize, total, old(job.checkpoint), [], job.Snapshot())
      ensures job.status == Running && job.totalItems == job.itemsFound == total
      ensures job.cancelRequested == old(job.cancelRequested)
    {
      job.status := Running;
      job.totalItems, job.itemsFound := total, total;
      job.processedItems, job.itemsImported, job.itemsSkipped, job.itemsFailed := 0, 0, 0, 0;
      job.rateLimitedItems, job.currentBatch := 0, 0;
      startOffset := Offset(job.checkpoint);
      if startOffset > 0 {
        job.processedItems := startOffset;
      }
    }

    /** The loop invariant: what has happened since the call began, when the batch at `startIdx`
        comes next. */
    ghost predicate InLoop(job: Job, items: seq<RuntimeItem>, before: Option<Checkpoint>, journal0: seq<Entry>,
                           calls0: seq<Call>, startIdx: nat, visits: seq<Visit>)
      reads this`batchSize, this`journal, remote`calls
      reads job`totalItems, job`processedItems, job`itemsImported, job`itemsSkipped, job`itemsFailed
      reads job`rateLimitedItems, job`currentBatch, job`checkpoint
    {
      && job.totalItems == |items|
      && Reached(items, ResumeStart(Offset(before), batchSize), startIdx, visits)
      && Made(job, items, before, journal0, calls0, visits)
    }

    /** What a call of `process_items` has done, apart from the final status. */
    ghost predicate Made(job: Job, items: seq<RuntimeItem>, before: Option<Checkpoint>, journal0: seq<Entry>,
                         calls0: seq<Call>, visits: seq<Visit>)
      reads this`batchSize, this`journal, remote`calls
      reads job`totalItems, job`processedItems, job`itemsImported, job`itemsSkipped, job`itemsFailed
      reads job`rateLimitedItems, job`currentBatch, job`checkpoint
    {
      var start := ResumeStart(Offset(before), batchSize);
      && Progress(batchSize, |items|, before, visits, job.Snapshot())
      && (visits != [] ==> start + |visits| <= |items| && VisitsOf(policy, items[start..start + |visits|], visits))
      && Traced(job.connectorId, journal0, calls0, visits)
    }

    lemma NothingMade(job: Job, items: seq<RuntimeItem>, before: Option<Checkpoint>)
      requires Progress(batchSize, |items|, before, [], job.Snapshot())
      ensures Made(job, items, before, journal, remote.calls, [])
    {
    }

    /** The body of the loop for a batch that is not skipped. */
    method NextBatch(job: Job, items: seq<RuntimeItem>, batchNum: nat, startIdx: nat, ghost before: Option<Checkpoint>,
                     ghost journal0: seq<Entry>, ghost calls0: seq<Call>, ghost visits: seq<Visit>)
      returns (raises: bool, ghost visits': seq<Visit>)
      requires Valid() && batchSize > 0
      requires InLoop(job, items, before, journal0, calls0, startIdx, visits)
      requires ResumeStart(Offset(before), batchSize) <= startIdx < |items|
      requires startIdx + batchSize == BatchEnd(batchNum, batchSize)
      modifies this`journal, job`processedItems, job`itemsImported, job`itemsSkipped, job`itemsFailed
      modifies job`rateLimitedItems, job`currentBatch, job`checkpoint, limiter
      modifies remote`time, remote`ticks, remote`asked, remote`calls, remote`sleeps, remote`drawn, remote`polls, remote`callbacks
      ensures Valid() && visits' != [] && job.currentBatch == batchNum
      ensures InLoop(job, items, before, journal0, calls0, startIdx + batchSize, visits')
      ensures old(remote.polls) <= remote.polls && (raises ==> remote.Raises(old(remote.polls), remote.polls))
      ensures Answered() == old(Answered()).Callback(raises)
    {
      hide Valid, VisitsOf, Count, Entries, CallsOf, ResumeStart, BatchEnd;
      ghost var start := ResumeStart(Offset(before), batchSize);
      ghost var now, journal', calls' := job.Snapshot(), journal, remote.calls;
      var made := RunBatch(job, items[startIdx..Min(startIdx + batchSize, |items|)], batchNum);
      ReachedStep(items, start, startIdx, visits, made);
      ProgressStep(batchSize, |items|, before, visits, made, batchNum, now, job.Snapshot());
      TracedStep(job.connectorId, journal0, calls0, visits, made, journal', calls');
      visits' := visits + made;
      raises := remote.CallbackRaises();
    }

    /** All that has been answered. */
    ghost function Answered(): Answers
      reads remote`looks, remote`callbacks
    {
      Answers(remote.looks, remote.callbacks)
    }

    /** Why the loop ended as it did: it was cancelled because the flag was set before, or because somebody
        asked for it meanwhile; it raised because the batch size is zero, or because the callback did. */
    ghost predicate EndsBecause(asked: bool, polls: nat, raised: bool, cancelled: bool)
      reads this`batchSize, remote`polls
    {
      && polls <= remote.polls
      && (cancelled ==> asked || remote.Cancels(polls, remote.polls))
      && (raised ==> batchSize == 0 || remote.Raises(polls, remote.polls))
      && (asked && batchSize != 0 ==> cancelled && !raised)
    }

    /** The whole loop. Every batch from the resume point on is visited until the list ends, a
        cancellation is noticed between two batches, or the progress callback raises. */
    method ProcessItems(job: Job, items: seq<RuntimeItem>) returns (raised: bool, ghost visits: seq<Visit>)
      requires Valid()
      modifies this`journal, job, limiter, remote
      ensures Valid()
      ensures Made(job, items, old(job.checkpoint), old(journal), old(remote.calls), visits)
      ensures if raised then job.status == Running
              else Ended(batchSize, job.Snapshot(), visits, ResumeStart(Offset(old(job.checkpoint)), batchSize) + |visits|,
                         job.status, job.cancelRequested)
      ensures EndsBecause(old(job.cancelRequested), old(remote.polls), raised, job.status == Cancelled)
      ensures Arrived(batchSize, ResumeStart(Offset(old(job.checkpoint)), batchSize), old(job.cancelRequested), old(Answered()), Answered(),
                      visits == [], job.currentBatch, raised, job.status == Cancelled)
      ensures job.itemsFound == |items|
    {
      hide Valid, ResumeStart, Made, Progress, VisitsOf, Count, Offset, OnTheWay, Arrived;
      visits := [];
      var startOffset := StartLeg(job, |items|);
      NothingMade(job, items, old(job.checkpoint));
      NothingAsked(batchSize, ResumeStart(startOffset, batchSize), Answered());
      if batchSize == 0 {
        return true, [];
      }
      if batchSize > 0 {
        raised, visits := WalkBatches(job, items, startOffset, old(job.checkpoint), old(journal), old(remote.calls));
      } else {
        raised, visits := WalkCut(job, items, startOffset, old(job.checkpoint), old(journal), old(remote.calls));
      }
    }

    /** The look at the flag before a batch. */
    method CheckCancel(job: Job, ghost start: nat, ghost flag: bool, ghost polls: nat, ghost before: Answers, ghost none: bool, ghost batchNum: nat)
      returns (cancelled: bool)
      requires batchSize != 0 && polls <= remote.polls && (job.cancelRequested ==> flag) && (flag ==> none)
      requires OnTheWay(batchSize, start, before, Answered(), none, job.currentBatch, batchNum)
      modifies job`cancelRequested, job`status, remote`polls, remote`looks
      ensures cancelled == job.cancelRequested && job.status == (if cancelled then Cancelled else old(job.status))
      ensures polls <= remote.polls && (old(job.cancelRequested) ==> cancelled)
      ensures !cancelled ==> Answered() == old(Answered()).Look(false)
      ensures cancelled ==>
                && (flag || remote.Cancels(polls, remote.polls))
                && Arrived(batchSize, start, flag, before, Answered(), none, job.currentBatch, false, true)
    {
      hide OnTheWay, Arrived, Remote.Cancels, Remote.Raises;
      var asked := remote.CancelAsked();
      remote.Longer(polls, old(remote.polls), remote.polls);
      job.cancelRequested := job.cancelRequested || asked;
      cancelled := job.cancelRequested;
      if cancelled {
        job.status := Cancelled;
        AskedCancel(batchSize, start, flag, before, old(Answered()), none, job.currentBatch, batchNum, asked);
      }
    }

    lemma AfterBatch(start: nat, polls: nat, seen: nat, before: Answers, now: Answers, none: bool, batch: nat, batchNum: nat, raises: bool)
      requires OnTheWay(batchSize, start, before, now, none, batch, batchNum) && batchSize != 0 && batchNum >= 1
      requires if batchSize > 0 then none ==> BatchEnd(batchNum - 1, batchSize) == start else none
      requires Answered() == now.Look(false).Callback(raises)
      requires polls <= seen <= remote.polls && (raises ==> remote.Raises(seen, remote.polls))
      ensures raises ==> remote.Raises(polls, remote.polls)
      ensures if raises then Arrived(batchSize, start, false, before, Answered(), false, batchNum, true, false)
              else OnTheWay(batchSize, start, before, Answered(), false, batchNum, batchNum + 1)
    {
      hide OnTheWay, Arrived, Remote.Cancels, Remote.Raises;
      AskedTwice(batchSize, start, before, now, none, batch, batchNum, raises);
      remote.Longer(polls, seen, remote.polls);
    }

    method WalkBatches(job: Job, items: seq<RuntimeItem>, startOffset: nat, ghost before: Option<Checkpoint>,
                       ghost journal0: seq<Entry>, ghost calls0: seq<Call>)
      returns (raised: bool, ghost visits: seq<Visit>)
      requires Valid() && batchSize > 0 && startOffset == Offset(before)
      requires job.status == Running && job.totalItems == |items| && Made(job, items, before, journal0, calls0, [])
      modifies this`journal, job`processedItems, job`itemsImported, job`itemsSkipped, job`itemsFailed
      modifies job`rateLimitedItems, job`currentBatch, job`checkpoint, job`cancelRequested, job`status, limiter, remote
      ensures Valid() && Made(job, items, before, journal0, calls0, visits)
      ensures if raised then job.status == Running
              else Ended(batchSize, job.Snapshot(), visits, ResumeStart(Offset(before), batchSize) + |visits|, job.status, job.cancelRequested)
      ensures EndsBecause(old(job.cancelRequested), old(remote.polls), raised, job.status == Cancelled)
      ensures Arrived(batchSize, ResumeStart(Offset(before), batchSize), old(job.cancelRequested), old(Answered()), Answered(),
                      visits == [], job.currentBatch, raised, job.status == Cancelled)
    {
      hide Valid, ResumeStart, BatchEnd, BatchCount, Made, Progress, VisitsOf, Count, Offset, OnTheWay, Arrived, Remote.Cancels, Remote.Raises;
      ghost var start, next := ResumeStart(Offset(before), batchSize), 1;
      NothingAsked(batchSize, start, Answered());
      visits := [];
      var totalBatches := BatchCount(|items|, batchSize);
      var batchNum, startIdx := 1, 0;
      FirstBatch(batchSize);
      while batchNum <= totalBatches
        invariant Valid() && job.status == Running
        invariant 1 <= batchNum <= totalBatches + 1 && startIdx == BatchEnd(batchNum - 1, batchSize)
        invariant InLoop(job, items, before, journal0, calls0, startIdx, visits)
        invariant old(remote.polls) <= remote.polls && (job.cancelRequested ==> old(job.cancelRequested))
        invariant old(job.cancelRequested) ==> batchNum == 1 && job.cancelRequested && visits == []
        invariant OnTheWay(batchSize, ResumeStart(Offset(before), batchSize), old(Answered()), Answered(), visits == [], job.currentBatch, next)
        invariant next == batchNum
      {
        BatchStarts(batchSize, |items|, batchNum, startOffset);
        ghost var now, none, batch := Answered(), visits == [], job.currentBatch;
        var cancelled := CheckCancel(job, start, old(job.cancelRequested), old(remote.polls), old(Answered()), none, batchNum);
        if cancelled {
          return false, visits;
        }
        if startIdx >= startOffset {
          if startIdx >= |items| {
            AskedOnce(batchSize, start, old(Answered()), now, none, job.currentBatch, batchNum);
            next := batchNum + 1;
            break;
          }
          ghost var seen := remote.polls;
          var raises;
          raises, visits := NextBatch(job, items, batchNum, startIdx, before, journal0, calls0, visits);
          AfterBatch(start, old(remote.polls), seen, old(Answered()), now, none, batch, batchNum, raises);
          if raises {
            return true, visits;
          }
        } else {
          AskedOnce(batchSize, start, old(Answered()), now, none, job.currentBatch, batchNum);
        }
        batchNum, startIdx := batchNum + 1, startIdx + batchSize;
        next := batchNum;
      }
      BatchStarts(batchSize, |items|, totalBatches, startOffset);
      AskedAll(batchSize, start, old(Answered()), Answered(), visits == [], job.currentBatch, next);
      job.status := if job.itemsFailed > 0 then CompletedWithWarnings else Completed;
      return false, visits;
    }

    /** The loop with a negative batch size: the first batch ends that many items before the end of the
        list, and all other batches start below zero and are skipped. */
    method WalkCut(job: Job, items: seq<RuntimeItem>, startOffset: nat, ghost before: Option<Checkpoint>,
                   ghost journal0: seq<Entry>, ghost calls0: seq<Call>)
      returns (raised: bool, ghost visits: seq<Visit>)
      requires Valid() && batchSize < 0 && startOffset == Offset(before)
      requires job.status == Running && job.totalItems == |items| && Made(job, items, before, journal0, calls0, [])
      modifies this`journal, job`processedItems, job`itemsImported, job`itemsSkipped, job`itemsFailed
      modifies job`rateLimitedItems, job`currentBatch, job`checkpoint, job`cancelRequested, job`status, limiter, remote
      ensures Valid() && Made(job, items, before, journal0, calls0, visits)
      ensures if raised then job.status == Running
              else Ended(batchSize, job.Snapshot(), visits, ResumeStart(Offset(before), batchSize) + |visits|, job.status, job.cancelRequested)
      ensures EndsBecause(old(job.cancelRequested), old(remote.polls), raised, job.status == Cancelled)
      ensures Arrived(batchSize, ResumeStart(Offset(before), batchSize), old(job.cancelRequested), old(Answered()), Answered(),
                      visits == [], job.currentBatch, raised, job.status == Cancelled)
    {
      hide Valid, Made, Progress, VisitsOf, Count, Offset, OnTheWay, Arrived, Remote.Cancels, Remote.Raises;
      ghost var start, next := ResumeStart(Offset(before), batchSize), 1;
      NothingAsked(batchSize, start, Answered());
      visits := [];
      var totalBatches := (-(|items| + batchSize - 1)) / (-batchSize);
      if totalBatches < 1 {
        totalBatches := 1;
      }
      for batchNum := 1 to totalBatches + 1
        invariant Valid() && job.status == Running && job.totalItems == |items|
        invariant Made(job, items, before, journal0, calls0, visits)
        invariant batchNum == 1 ==> visits == []
        invariant visits != [] ==> startOffset == 0 && |visits| == |items| + batchSize
        invariant batchNum > 1 && visits == [] ==> startOffset > 0
        invariant old(remote.polls) <= remote.polls && (job.cancelRequested ==> old(job.cancelRequested))
        invariant old(job.cancelRequested) ==> batchNum == 1 && job.cancelRequested && visits == []
        invariant OnTheWay(batchSize, ResumeStart(Offset(before), batchSize), old(Answered()), Answered(), visits == [], job.currentBatch, next)
        invariant next == batchNum
      {
        ghost var now, none, batch := Answered(), visits == [], job.currentBatch;
        var cancelled := CheckCancel(job, start, old(job.cancelRequested), old(remote.polls), old(Answered()), none, batchNum);
        if cancelled {
          return false, visits;
        }
        if batchNum == 1 && startOffset == 0 {
          if |items| + batchSize <= 0 {
            AskedOnce(batchSize, start, old(Answered()), now, none, job.currentBatch, batchNum);
            next := batchNum + 1;
            break;
          }
          ghost var seen := remote.polls;
          var raises;
          raises, visits := CutBatch(job, items, before, journal0, calls0);
          AfterBatch(start, old(remote.polls), seen, old(Answered()), now, none, batch, batchNum, raises);
          if raises {
            return true, visits;
          }
        } else {
          AskedOnce(batchSize, start, old(Answered()), now, none, job.currentBatch, batchNum);
        }
        next := batchNum + 1;
      }
      AskedAll(batchSize, start, old(Answered()), Answered(), visits == [], job.currentBatch, next);
      job.status := if job.itemsFailed > 0 then CompletedWithWarnings else Completed;
      return false, visits;
    }

    method CutBatch(job: Job, items: seq<RuntimeItem>, ghost before: Option<Checkpoint>, ghost journal0: seq<Entry>, ghost calls0: seq<Call>)
      returns (raises: bool, ghost made: seq<Visit>)
      requires Valid() && batchSize < 0 && Offset(before) == 0 && |items| + batchSize > 0
      requires job.totalItems == |items| && Made(job, items, before, journal0, calls0, [])
      modifies this`journal, job`processedItems, job`itemsImported, job`itemsSkipped, job`itemsFailed
      modifies job`rateLimitedItems, job`currentBatch, job`checkpoint, limiter
      modifies remote`time, remote`ticks, remote`asked, remote`calls, remote`sleeps, remote`drawn, remote`polls, remote`callbacks
      ensures Valid() && Made(job, items, before, journal0, calls0, made)
      ensures |made| == |items| + batchSize && job.currentBatch == 1
      ensures old(remote.polls) <= remote.polls && (raises ==> remote.Raises(old(remote.polls), remote.polls))
      ensures Answered() == old(Answered()).Callback(raises)
    {
      hide Valid, Count, Entries, CallsOf, Offset, IsVisit;
      ghost var now, journal', calls' := job.Snapshot(), journal, remote.calls;
      made := RunBatch(job, items[..|items| + batchSize], 1);
      CutProgress(batchSize, |items|, before, made, now, job.Snapshot());
      TracedStep(job.connectorId, journal0, calls0, [], made, journal', calls');
      assert [] + made == made;
      raises := remote.CallbackRaises();
    }

    /** Asks for cancellation; the loop notices it before its next batch. */
    method RequestCancel(job: Job)
      modifies job`cancelRequested
      ensures job.cancelRequested
    {
      job.cancelRequested := true;
    }

    /** One leg: the loop under the exception handler that both of its callers put around it
        (src/decision_system/connectors/import_jobs.py), which marks the job as failed. */
    method RunLeg(job: Job, items: seq<RuntimeItem>) returns (ghost leg: LegRecord)
      requires Valid()
      modifies this`journal, job, limiter, remote
      ensures Valid()
      ensures leg == LegRecord(batchSize, old(job.checkpoint), leg.visits, job.Snapshot(), job.status, job.cancelRequested)
      ensures IsLeg(policy, items, leg)
      ensures Traced(job.connectorId, old(journal), old(remote.calls), leg.visits)
      ensures EndsBecause(old(job.cancelRequested), old(remote.polls), job.status == Failed, job.status == Cancelled)
      ensures job.status in {Completed, CompletedWithWarnings, Cancelled, Failed}
      ensures Arrived(batchSize, leg.Start(), old(job.cancelRequested), old(Answered()), Answered(), leg.visits == [], job.currentBatch,
                      job.status == Failed, job.status == Cancelled)
    {
      hide Valid, Progress, VisitsOf, ResumeStart, Arrived;
      var raised;
      ghost var visits;
      raised, visits := ProcessItems(job, items);
      if raised {
        job.status := Failed;
      }
      leg := LegRecord(batchSize, old(job.checkpoint), visits, job.Snapshot(), job.status, job.cancelRequested);
    }

    /** Resumes a job from its checkpoint, with the batch size the processor has now; a job that
        is not failed, paused or cancelled is left as it is. An earlier request to cancel is forgotten: the
        resumed job is finished unless somebody asks again, the callback raises, or the batch size is zero. */
    method ResumeJob(job: Job, items: seq<RuntimeItem>) returns (resumed: bool, ghost leg: LegRecord)
      requires Valid()
      modifies this`journal, job, limiter, remote
      ensures Valid()
      ensures resumed == (old(job.status) in {Failed, Paused, Cancelled})
      ensures resumed ==>
                && leg == LegRecord(batchSize, old(job.checkpoint), leg.visits, job.Snapshot(), job.status, job.cancelRequested)
                && IsLeg(policy, items, leg)
                && Traced(job.connectorId, old(journal), old(remote.calls), leg.visits)
      ensures resumed ==>
                && EndsBecause(false, old(remote.polls), job.status == Failed, job.status == Cancelled)
                && job.status in {Completed, CompletedWithWarnings, Cancelled, Failed}
                && Arrived(batchSize, leg.Start(), false, old(Answered()), Answered(), leg.visits == [], job.currentBatch,
                           job.status == Failed, job.status == Cancelled)
      ensures resumed && (forall n :: !remote.cancels(n)) ==> job.status != Cancelled
      ensures resumed && batchSize != 0 && (forall n :: !remote.cancels(n) && !remote.callbackRaises(n)) ==>
                job.status in {Completed, CompletedWithWarnings}
      ensures !resumed ==> job.Snapshot() == old(job.Snapshot()) && job.status == old(job.status) && journal == old(journal)
                           && remote.calls == old(remote.calls)
    {
      hide Valid, Traced, IsLeg, Arrived;
      resumed := job.status == Failed || job.status == Paused || job.status == Cancelled;
      if resumed {
        job.status := Running;
        job.cancelRequested := false;
        leg := RunLeg(job, items);
      } else {
        leg := LegRecord(batchSize, job.checkpoint, [], job.Snapshot(), job.status, job.cancelRequested);
      }
    }
  }
}
