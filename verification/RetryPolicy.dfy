/** Bounded retries with exponential, jittered backoff
    (src/decision_system/connectors/retry_policy.py), and the remote end the retried
    function talks to. */
module Retry {
  import opened Prelude

  /** What one call of the fetch function does: usable content, content without text or
      bytes (or no content at all), or an exception with a message. */
  datatype Answer = Usable | Blank | Raised(error: string)

  /** One call of the fetch function, and when it was made. */
  datatype Call = Call(item: RuntimeItem, at: real, answer: Answer)

  datatype RetryAttempt = RetryAttempt(number: int, error: string, delay: real)

  datatype Result<T> = Ok(value: T) | Err(error: string)

  const NON_RETRYABLE: seq<string> := [
    "401", "403", "unauthorized", "forbidden", "not found", "unsupported file", "path traversal",
    "blocked", "file too large", "malformed config", "invalid config", "permission denied",
    "access denied"]

  const RETRYABLE: seq<string> := [
    "timeout", "timed out", "connection reset", "connection refused", "connection aborted",
    "name resolution", "temporarily unavailable", "rate limit", "429", "500", "502", "503", "504",
    "service unavailable", "too many requests", "retry later", "network is unreachable",
    "reset by peer"]

  /** The words by which the batch processor recognises a rate-limit failure. */
  const RATE_LIMIT: seq<string> := ["429", "rate limit", "too many requests"]

  /** Lower case, as far as it can make a keyword appear: the letters A to Z, and the Kelvin sign, which
      becomes a k. The only other character that becomes a plain letter is the dotted capital I; it
      becomes an i with a combining dot after it, and no keyword has that. */
  function Lower(s: string): (r: string)
    ensures |r| == |s|
  {
    seq(|s|, i requires 0 <= i < |s| =>
      if 'A' <= s[i] <= 'Z' then (s[i] as int + 32) as char else if s[i] == '\U{212A}' then 'k' else s[i])
  }

  predicate OccursAt(text: string, word: string, i: int) {
    0 <= i <= |text| - |word| && text[i..i + |word|] == word
  }

  predicate Contains(text: string, word: string) {
    exists i | 0 <= i <= |text| - |word| :: OccursAt(text, word, i)
  }

  predicate ContainsAny(text: string, words: seq<string>) {
    exists k :: 0 <= k < |words| && Contains(text, words[k])
  }

  /** Permanent keywords take precedence; an error without a keyword is permanent. */
  predicate IsRetryable(error: string) {
    !ContainsAny(Lower(error), NON_RETRYABLE) && ContainsAny(Lower(error), RETRYABLE)
  }

  predicate IsRateLimitError(error: string) {
    ContainsAny(Lower(error), RATE_LIMIT)
  }

  lemma LowerConcat(a: string, b: string, c: string)
    ensures Lower(a + b + c) == Lower(a) + Lower(b) + Lower(c)
  {
  }

  lemma Occurs(a: string, word: string, c: string, words: seq<string>)
    ensures word in words ==> ContainsAny(a + word + c, words)
  {
    assert OccursAt(a + word + c, word, |a|);
    if word in words {
      var k :| 0 <= k < |words| && words[k] == word;
      assert Contains(a + word + c, words[k]);
    }
  }

  /** A keyword decides wherever it stands in a message, and in any letter case: a permanent one forbids a
      retry, any other one calls for it if the message has no permanent one. */
  lemma WordDecides(before: string, spelt: string, after: string)
    ensures var error, word := before + spelt + after, Lower(spelt);
            && (word in NON_RETRYABLE ==> !IsRetryable(error))
            && (word in RETRYABLE && (forall k :: 0 <= k < |NON_RETRYABLE| ==> !Contains(Lower(error), NON_RETRYABLE[k])) ==> IsRetryable(error))
            && (word in RATE_LIMIT ==> IsRateLimitError(error))
  {
    hide Lower, Contains;
    LowerConcat(before, spelt, after);
    Occurs(Lower(before), Lower(spelt), Lower(after), NON_RETRYABLE);
    Occurs(Lower(before), Lower(spelt), Lower(after), RETRYABLE);
    Occurs(Lower(before), Lower(spelt), Lower(after), RATE_LIMIT);
  }

  /** Letters are compared without regard to case. */
  lemma LetterCase(c: char)
    requires 'A' <= c <= 'Z'
    ensures Lower([c]) == ['a' + (c - 'A')] && Lower("\U{212A}") == "k"
  {
  }

  /** All other characters stay as they are. */
  lemma OtherLetters(s: string)
    requires forall i :: 0 <= i < |s| ==> !('A' <= s[i] <= 'Z') && s[i] != '\U{212A}'
    ensures Lower(s) == s
  {
  }

  /** A message in which no keyword occurs is not retried. */
  lemma UnknownIsPermanent(error: string)
    requires forall k :: 0 <= k < |RETRYABLE| ==> !Contains(Lower(error), RETRYABLE[k])
    ensures !IsRetryable(error) && !IsRateLimitError(error)
  {
    hide Lower, Contains;
    assert RETRYABLE[8] == RATE_LIMIT[0] && RETRYABLE[7] == RATE_LIMIT[1] && RETRYABLE[14] == RATE_LIMIT[2];
  }

  /** Every word that marks a rate limit also marks an error worth retrying, so a rate-limit
      error is given up at once exactly when it also carries a permanent keyword. */
  lemma RateLimitErrorsAreRetried(error: string)
    requires IsRateLimitError(error)
    ensures IsRetryable(error) <==> !ContainsAny(Lower(error), NON_RETRYABLE)
  {
    var k :| 0 <= k < |RATE_LIMIT| && Contains(Lower(error), RATE_LIMIT[k]);
    assert RETRYABLE[8] == RATE_LIMIT[0] && RETRYABLE[7] == RATE_LIMIT[1] && RETRYABLE[14] == RATE_LIMIT[2];
  }

  function Power(factor: real, n: nat): real {
    if n == 0 then 1.0 else factor * Power(factor, n - 1)
  }

  /** A delay moved up or down by at most the jitter factor. */
  function Spread(delay: real, jitter: real, draw: real): real {
    delay + delay * jitter * (2.0 * draw - 1.0)
  }

  datatype RetryPolicy = RetryPolicy(
    maxRetries: int, baseDelay: real, maxDelay: real, factor: real, jitter: real)
  {
    /** The delay before jitter, not yet capped; attempts are numbered from 1. */
    function Uncapped(attempt: nat): real
      requires attempt >= 1
    {
      baseDelay * Power(factor, attempt - 1)
    }

    /** The jittered delay for a random draw in [0, 1). */
    function Delay(attempt: nat, draw: real): (d: real)
      requires attempt >= 1
      ensures 0.1 <= d <= RMax(0.1, maxDelay)
    {
      Jittered(RMin(Uncapped(attempt), maxDelay), draw)
    }

    function Jittered(delay: real, draw: real): real {
      RMax(0.1, RMin(Spread(delay, jitter, draw), maxDelay))
    }

    predicate ShouldRetry(error: string, attempt: int) {
      attempt <= maxRetries && IsRetryable(error)
    }

    /** A complete run of the retry loop, read off the calls it made: every call but the last
        failed in a retryable way, and the last one either did not fail, or failed for good, or
        was the last one allowed. */
    ghost predicate IsRun(calls: seq<Call>, item: RuntimeItem) {
      && (forall i :: 0 <= i < |calls| ==> calls[i].item == item)
      && (calls == [] <==> maxRetries < 0)
      && |calls| <= RetryBound()
      && (forall i :: 0 <= i < |calls| - 1 ==>
                        calls[i].answer.Raised? && IsRetryable(calls[i].answer.error))
      && (calls != [] ==>
            var last := calls[|calls| - 1].answer;
            last.Raised? && IsRetryable(last.error) ==> |calls| == maxRetries + 1)
    }

    /** Whatever the jitter, the ranges of two successive delays do not meet. */
    ghost predicate Separates() {
      0.0 <= jitter < 1.0 && factor * (1.0 - jitter) > 1.0 + jitter && baseDelay * (1.0 - jitter) >= 0.1
    }

    /** The most calls one execution may make. */
    function RetryBound(): nat {
      if maxRetries < 0 then 0 else maxRetries + 1
    }
  }

  const DEFAULT_POLICY := RetryPolicy(3, 1.0, 30.0, 2.0, 0.1)

  /** What the caller of the retry loop sees: the answer of the last call, and no content when
      a negative retry count means that the function is never called. */
  function Outcome(calls: seq<Call>): Answer {
    if calls == [] then Blank else calls[|calls| - 1].answer
  }

  /** How the caller of the batch processor sees an answer. */
  function AsResult(a: Answer): Result<Answer> {
    if a.Raised? then Err(a.error) else Ok(a)
  }

  /** The answers fix where the loop stops: of two runs against the same remote end, neither
      is a proper prefix of the other. */
  lemma RunIsDetermined(p: RetryPolicy, item: RuntimeItem, a: seq<Call>, b: seq<Call>)
    requires p.IsRun(a, item) && p.IsRun(b, item)
    requires |a| <= |b|
    requires forall i :: 0 <= i < |a| ==> a[i].answer == b[i].answer
    ensures |a| == |b|
  {
  }

  /** A rate-limit failure reaches the caller only after every allowed call was made, unless
      the message also names a permanent error. */
  lemma RateLimitFailureExhaustsRetries(p: RetryPolicy, item: RuntimeItem, calls: seq<Call>)
    requires p.IsRun(calls, item)
    requires Outcome(calls).Raised? && IsRateLimitError(Outcome(calls).error)
    ensures |calls| == p.maxRetries + 1 || ContainsAny(Lower(Outcome(calls).error), NON_RETRYABLE)
  {
    RateLimitErrorsAreRetried(Outcome(calls).error);
  }

  lemma PowerStep(p: RetryPolicy, attempt: nat)
    requires attempt >= 1
    ensures p.Uncapped(attempt + 1) == p.Uncapped(attempt) * p.factor
  {
    var b, f, w := p.baseDelay, p.factor, Power(p.factor, attempt - 1);
    assert Power(f, attempt) == f * w;
    assert b * (f * w) == (b * w) * f;
  }

  lemma {:induction false} PowerGrows(p: RetryPolicy, attempt: nat)
    requires attempt >= 1 && p.factor >= 1.0 && p.baseDelay >= 0.0
    ensures p.Uncapped(attempt) >= p.baseDelay
  {
    if attempt > 1 {
      PowerStep(p, attempt - 1);
      PowerGrows(p, attempt - 1);
      var u := p.Uncapped(attempt - 1);
      assert u * p.factor >= u * 1.0;
    }
  }

  lemma ScaleLess(a: real, x: real, y: real)
    requires a >= 0.0 && x <= y
    ensures a * x <= a * y
  {
  }

  lemma FactorAboveOne(f: real, j: real)
    requires 0.0 <= j < 1.0 && f * (1.0 - j) > 1.0 + j
    ensures f >= 1.0
  {
    if f < 1.0 {
      ScaleLess(1.0 - j, f, 1.0);
      calc {
        f * (1.0 - j);
        (1.0 - j) * f;
      <=
        (1.0 - j) * 1.0;
      <=
        1.0 + j;
      }
    }
  }

  /** Jitter moves a delay by at most the jitter factor either way. */
  lemma SpreadRange(u: real, j: real, draw: real, lo: real, hi: real)
    requires u >= 0.0 && 0.0 <= j < 1.0 && 0.0 <= draw < 1.0
    requires lo == u * (1.0 - j) && hi == u * (1.0 + j)
    ensures lo <= Spread(u, j, draw) <= hi
  {
    var v, x := u * j, 2.0 * draw - 1.0;
    ScaleLess(u, 0.0, j);
    ScaleLess(v, x, 1.0);
    ScaleLess(v, -1.0, x);
    assert lo == u - v && hi == u + v;
  }

  /** Jitter is even: the least draw takes the jitter factor off, the middle one changes nothing, and two
      opposite draws move the delay equally far in opposite directions. */
  lemma JitterIsEven(delay: real, jitter: real, draw: real)
    ensures Spread(delay, jitter, 0.0) == delay - delay * jitter && Spread(delay, jitter, 0.5) == delay
    ensures Spread(delay, jitter, draw) - delay == delay - Spread(delay, jitter, 1.0 - draw)
    ensures Spread(delay, jitter, 1.0) == delay + delay * jitter
  {
    var v, x := delay * jitter, 2.0 * draw - 1.0;
    assert 2.0 * (1.0 - draw) - 1.0 == -x;
    assert v * -x == -(v * x);
  }

  /** The jitter ranges of two successive delays do not meet. */
  lemma RangesApart(base: real, u: real, f: real, j: real, lo: real, hi: real, lo': real)
    requires 0.0 < base <= u && 0.0 <= j < 1.0
    requires f * (1.0 - j) > 1.0 + j && base * (1.0 - j) >= 0.1
    requires lo == u * (1.0 - j) && hi == u * (1.0 + j) && lo' == u * f * (1.0 - j)
    ensures 0.1 <= lo <= hi < lo' <= u * f && u <= u * f
  {
    var g, h := 1.0 - j, 1.0 + j;
    ScaleLess(g, base, u);
    ScaleLess(u, g, h);
    var gap := f * g - h;
    assert u * gap > 0.0;
    assert u * gap == u * (f * g) - u * h;
    assert u * (f * g) == u * f * g;
    FactorAboveOne(f, j);
    ScaleLess(u, 0.0, f);
    ScaleLess(u, 1.0, f);
    ScaleLess(u * f, g, 1.0);
  }

  /** While the next raw delay is below the cap, the backoff strictly grows whatever the two
      random draws are. */
  lemma BackoffGrows(p: RetryPolicy, attempt: nat, draw: real, draw': real)
    requires attempt >= 1
    requires 0.0 <= draw < 1.0 && 0.0 <= draw' < 1.0
    requires p.Separates()
    requires p.Uncapped(attempt + 1) <= p.maxDelay
    ensures p.Delay(attempt, draw) < p.Delay(attempt + 1, draw')
  {
    hide Power, RetryPolicy.Uncapped, RetryPolicy.Jittered;
    PositiveBase(p);
    FactorAboveOne(p.factor, p.jitter);
    PowerStep(p, attempt);
    PowerGrows(p, attempt);
    JitteredGrows(p, p.Uncapped(attempt), p.Uncapped(attempt + 1), draw, draw');
  }

  lemma PositiveBase(p: RetryPolicy)
    requires 0.0 <= p.jitter < 1.0 && p.baseDelay * (1.0 - p.jitter) >= 0.1
    ensures p.baseDelay > 0.0
  {
    var j, b := 1.0 - p.jitter, p.baseDelay;
    if b <= 0.0 { ScaleLess(j, b, 0.0); }
  }

  lemma JitteredGrows(p: RetryPolicy, u: real, u': real, draw: real, draw': real)
    requires 0.0 <= draw < 1.0 && 0.0 <= draw' < 1.0 && 0.0 <= p.jitter < 1.0
    requires p.factor * (1.0 - p.jitter) > 1.0 + p.jitter
    requires 0.0 < p.baseDelay <= u && p.baseDelay * (1.0 - p.jitter) >= 0.1
    requires u' == u * p.factor <= p.maxDelay
    ensures u <= u' && p.Jittered(u, draw) < p.Jittered(u', draw')
  {
    var j := p.jitter;
    var lo, hi, lo' := u * (1.0 - j), u * (1.0 + j), u' * (1.0 - j);
    RangesApart(p.baseDelay, u, p.factor, j, lo, hi, lo');
    SpreadRange(u, j, draw, lo, hi);
    SpreadRange(u', j, draw', lo', u' * (1.0 + j));
    Clipped(p.maxDelay, lo, hi, lo', u', Spread(u, j, draw), Spread(u', j, draw'));
  }

  /** Cutting two delays to the allowed range keeps their order. */
  lemma Clipped(cap: real, lo: real, hi: real, lo': real, raw': real, d: real, d': real)
    requires 0.1 <= lo <= d <= hi < lo' <= d' && lo' <= raw' <= cap
    ensures RMax(0.1, RMin(d, cap)) < RMax(0.1, RMin(d', cap))
  {
  }

  /** How much time passes between two clock readings; the clock never runs backwards. */
  type Duration = d: real | d >= 0.0

  /** The world outside the importer: the clock, the remote connector, the random source, and
      the threads that may ask for a cancellation. Scripts stand for what they do. */
  class Remote {
    const passes: nat -> Duration
    const answers: (nat, RuntimeItem) -> Answer
    const draws: nat -> real
    const cancels: nat -> bool
    const callbackRaises: nat -> bool
    var time: real
    var ticks: nat
    var asked: nat
    var polls: nat
    ghost var calls: seq<Call>
    ghost var sleeps: seq<real>
    ghost var drawn: seq<real>
    /** What the looks at the cancellation flag, and the calls of the progress callback, brought. */
    ghost var looks: seq<bool>
    ghost var callbacks: seq<bool>

    constructor (start: real, passes: nat -> Duration, answers: (nat, RuntimeItem) -> Answer,
                 draws: nat -> real, cancels: nat -> bool, callbackRaises: nat -> bool)
      ensures time == start && calls == [] && sleeps == []
    {
      this.passes := passes;
      this.answers := answers;
      this.draws := draws;
      this.cancels := cancels;
      this.callbackRaises := callbackRaises;
      time, ticks, asked, polls, calls, sleeps := start, 0, 0, 0, [], [];
      drawn, looks, callbacks := [], [], [];
    }

    /** Whether a cancellation was asked for at one of these looks at the script. */
    ghost predicate Cancels(from: nat, to: nat) {
      exists n :: from < n <= to && cancels(n)
    }

    /** Whether the callback raised at one of them. */
    ghost predicate Raises(from: nat, to: nat) {
      exists n :: from < n <= to && callbackRaises(n)
    }

    lemma Longer(from: nat, mid: nat, to: nat)
      requires from <= mid
      ensures Cancels(mid, to) ==> Cancels(from, to)
      ensures Raises(mid, to) ==> Raises(from, to)
    {
    }

    method Now() returns (t: real)
      modifies this`time, this`ticks
      ensures t == time && old(time) <= t
    {
      time := time + passes(ticks);
      ticks := ticks + 1;
      t := time;
    }

    /** Calls the fetch function once, at or after the latest clock reading. */
    method Fetch(item: RuntimeItem) returns (answer: Answer)
      modifies this`time, this`ticks, this`asked, this`calls
      ensures old(time) <= time
      ensures calls == old(calls) + [Call(item, time, answer)]
    {
      time := time + passes(ticks);
      ticks := ticks + 1;
      answer := answers(asked, item);
      asked := asked + 1;
      calls := calls + [Call(item, time, answer)];
    }

    method Random() returns (draw: real)
      modifies this`ticks, this`drawn
      ensures ticks == old(ticks) + 1 && draw == draws(ticks) && drawn == old(drawn) + [draw]
    {
      ticks := ticks + 1;
      draw := draws(ticks);
      drawn := drawn + [draw];
    }

    method Sleep(delay: real)
      modifies this`sleeps
      ensures sleeps == old(sleeps) + [delay]
    {
      sleeps := sleeps + [delay];
    }

    /** Whether some other thread has asked for a cancellation by now. */
    method CancelAsked() returns (asked: bool)
      modifies this`polls, this`looks
      ensures polls == old(polls) + 1 && asked == cancels(polls) && (asked ==> Cancels(old(polls), polls))
      ensures looks == old(looks) + [asked]
    {
      polls := polls + 1;
      asked := cancels(polls);
      looks := looks + [asked];
    }

    /** Whether the progress callback raises this time. */
    method CallbackRaises() returns (raises: bool)
      modifies this`polls, this`callbacks
      ensures polls == old(polls) + 1 && raises == callbackRaises(polls) && (raises ==> Raises(old(polls), polls))
      ensures callbacks == old(callbacks) + [raises]
    {
      polls := polls + 1;
      raises := callbackRaises(polls);
      callbacks := callbacks + [raises];
    }
  }

  /** Random draws lie in [0, 1). */
  ghost predicate FairDraws(draws: nat -> real) {
    forall n :: 0.0 <= draws(n) < 1.0
  }

  /** What the backoff promises of the recorded delays: each is the base delay times a power of the factor,
      or the longest delay if that is less, moved by at most the jitter factor, and then cut to the allowed
      range. */
  ghost predicate BacksOff(p: RetryPolicy, attempts: seq<RetryAttempt>) {
    forall i :: 0 <= i < |attempts| ==> NearRaw(p, i, attempts[i].delay)
  }

  ghost predicate NearRaw(p: RetryPolicy, n: nat, delay: real) {
    Around(p, RMin(p.Uncapped(n + 1), p.maxDelay), delay)
  }

  ghost predicate Around(p: RetryPolicy, raw: real, delay: real) {
    RMax(0.1, raw * (1.0 - p.jitter)) <= delay <= RMax(0.1, RMin(raw * (1.0 + p.jitter), p.maxDelay))
  }

  /** As long as the longest delay is not reached, each delay is longer than the one before. */
  ghost predicate Grows(p: RetryPolicy, attempts: seq<RetryAttempt>) {
    forall i :: 1 <= i < |attempts| && p.baseDelay * Power(p.factor, i) <= p.maxDelay ==>
      attempts[i - 1].delay < attempts[i].delay
  }

  /** The record kept of a failed call: its number, its error, and the delay that followed. */
  ghost predicate Records(p: RetryPolicy, attempts: seq<RetryAttempt>, calls: seq<Call>) {
    && |attempts| <= |calls|
    && forall i :: 0 <= i < |attempts| ==>
         && calls[i].answer.Raised?
         && attempts[i].number == i + 1
         && attempts[i].error == calls[i].answer.error
         && 0.1 <= attempts[i].delay <= RMax(0.1, p.maxDelay)
  }

  /** How the delays came about. */
  ghost predicate DelaysFrom(p: RetryPolicy, attempts: seq<RetryAttempt>, drawn: seq<real>) {
    |drawn| == |attempts| && forall i :: 0 <= i < |attempts| ==> attempts[i].delay == p.Delay(i + 1, drawn[i])
  }

  lemma {:induction false} PowerNotNegative(factor: real, n: nat)
    requires factor >= 0.0
    ensures Power(factor, n) >= 0.0
  {
    if n > 0 {
      PowerNotNegative(factor, n - 1);
    }
  }

  /** Delays that come from fair draws back off. */
  lemma DrawnBackOff(p: RetryPolicy, attempts: seq<RetryAttempt>, drawn: seq<real>)
    requires DelaysFrom(p, attempts, drawn) && forall i :: 0 <= i < |drawn| ==> 0.0 <= drawn[i] < 1.0
    requires 0.0 <= p.jitter < 1.0 && p.baseDelay >= 0.0 && p.factor >= 0.0 && p.maxDelay >= 0.0
    ensures BacksOff(p, attempts)
  {
    hide NearRaw, RetryPolicy.Delay, Power;
    forall i | 0 <= i < |attempts| ensures NearRaw(p, i, attempts[i].delay) {
      PowerNotNegative(p.factor, i);
      ScaleLess(p.baseDelay, 0.0, Power(p.factor, i));
      DelayNearRaw(p, i + 1, drawn[i]);
    }
  }

  lemma DelayNearRaw(p: RetryPolicy, attempt: nat, draw: real)
    requires attempt >= 1 && 0.0 <= p.jitter < 1.0 && p.maxDelay >= 0.0 && p.Uncapped(attempt) >= 0.0 && 0.0 <= draw < 1.0
    ensures NearRaw(p, attempt - 1, p.Delay(attempt, draw))
  {
    hide RetryPolicy.Jittered, RetryPolicy.Uncapped, Around;
    JitteredRange(p, RMin(p.Uncapped(attempt), p.maxDelay), draw);
  }

  lemma JitteredRange(p: RetryPolicy, raw: real, draw: real)
    requires 0.0 <= p.jitter < 1.0 && 0.0 <= raw <= p.maxDelay && 0.0 <= draw < 1.0
    ensures Around(p, raw, p.Jittered(raw, draw))
  {
    hide RetryPolicy.Jittered;
    JitterBounds(p, raw, draw, raw * (1.0 - p.jitter), raw * (1.0 + p.jitter));
  }

  lemma JitterBounds(p: RetryPolicy, raw: real, draw: real, lo: real, hi: real)
    requires 0.0 <= p.jitter < 1.0 && 0.0 <= raw <= p.maxDelay && 0.0 <= draw < 1.0
    requires lo == raw * (1.0 - p.jitter) && hi == raw * (1.0 + p.jitter)
    ensures RMax(0.1, lo) <= p.Jittered(raw, draw) <= RMax(0.1, RMin(hi, p.maxDelay))
  {
    hide Spread;
    SpreadRange(raw, p.jitter, draw, lo, hi);
    ScaleLess(raw, 1.0 - p.jitter, 1.0);
    CutToRange(p.maxDelay, lo, hi, Spread(raw, p.jitter, draw));
  }

  lemma CutToRange(cap: real, lo: real, hi: real, d: real)
    requires lo <= d <= hi && lo <= cap
    ensures RMax(0.1, lo) <= RMax(0.1, RMin(d, cap)) <= RMax(0.1, RMin(hi, cap))
  {
  }

  lemma DrawnGrow(p: RetryPolicy, attempts: seq<RetryAttempt>, drawn: seq<real>)
    requires DelaysFrom(p, attempts, drawn) && forall i :: 0 <= i < |drawn| ==> 0.0 <= drawn[i] < 1.0
    requires p.Separates()
    ensures Grows(p, attempts)
  {
    hide RetryPolicy.Delay, Power;
    forall i | 1 <= i < |attempts| && p.baseDelay * Power(p.factor, i) <= p.maxDelay ensures attempts[i - 1].delay < attempts[i].delay {
      BackoffGrows(p, i, drawn[i - 1], drawn[i]);
    }
  }

  lemma DrawnDelays(p: RetryPolicy, attempts: seq<RetryAttempt>, drawn: seq<real>)
    requires DelaysFrom(p, attempts, drawn) && forall i :: 0 <= i < |drawn| ==> 0.0 <= drawn[i] < 1.0
    ensures 0.0 <= p.jitter < 1.0 && p.baseDelay >= 0.0 && p.factor >= 0.0 && p.maxDelay >= 0.0 ==> BacksOff(p, attempts)
    ensures p.Separates() ==> Grows(p, attempts)
  {
    hide DelaysFrom, BacksOff, Grows, RetryPolicy.Separates;
    if 0.0 <= p.jitter < 1.0 && p.baseDelay >= 0.0 && p.factor >= 0.0 && p.maxDelay >= 0.0 {
      DrawnBackOff(p, attempts, drawn);
    }
    if p.Separates() {
      DrawnGrow(p, attempts, drawn);
    }
  }

  /** The default policy waits about one, two and four seconds, and, if it were allowed more than five
      retries, about thirty seconds from then on. */
  lemma DefaultBackoff(p: RetryPolicy, i: nat, delay: real)
    requires NearRaw(p, i, delay)
    ensures p == DEFAULT_POLICY && i == 0 ==> 0.9 <= delay <= 1.1
    ensures p == DEFAULT_POLICY && i == 1 ==> 1.8 <= delay <= 2.2
    ensures p == DEFAULT_POLICY && i == 2 ==> 3.6 <= delay <= 4.4
    ensures p == DEFAULT_POLICY && i >= 5 ==> 27.0 <= delay <= 30.0
  {
    if i >= 5 {
      PowersOfTwo(i);
    }
    assert Power(2.0, 1) == 2.0 * Power(2.0, 0) && Power(2.0, 2) == 2.0 * Power(2.0, 1);
  }

  /** The first delay is the base delay, give or take the jitter. */
  lemma FirstDelay(p: RetryPolicy, delay: real)
    requires NearRaw(p, 0, delay) && p.Separates() && p.baseDelay <= p.maxDelay
    ensures p.baseDelay * (1.0 - p.jitter) <= delay <= p.baseDelay * (1.0 + p.jitter)
  {
    hide Around;
    PositiveBase(p);
    assert Power(p.factor, 0) == 1.0;
    assert RMin(p.Uncapped(1), p.maxDelay) == p.baseDelay;
    AroundBase(p, p.baseDelay, delay, p.baseDelay * (1.0 - p.jitter), p.baseDelay * (1.0 + p.jitter));
  }

  lemma AroundBase(p: RetryPolicy, base: real, delay: real, lo: real, hi: real)
    requires Around(p, base, delay) && base > 0.0 && 0.0 <= p.jitter < 1.0
    requires lo == base * (1.0 - p.jitter) >= 0.1 && hi == base * (1.0 + p.jitter)
    ensures lo <= delay <= hi
  {
    ScaleLess(base, 1.0 - p.jitter, 1.0 + p.jitter);
  }

  lemma {:induction false} PowersOfTwo(n: nat)
    requires n >= 5
    ensures Power(2.0, n) >= 32.0
  {
    if n > 5 {
      PowersOfTwo(n - 1);
    } else {
      assert Power(2.0, 3) == 8.0 && Power(2.0, 5) == 4.0 * Power(2.0, 3);
    }
  }

  /** The retry loop. Whatever the remote end answers, the calls made form a run; a success on
      the k-th call comes with the k - 1 records before it; the recorded delays, which are the sleeps, back
      off; and the time slept is bounded. */
  method ExecuteWithRetry(p: RetryPolicy, remote: Remote, item: RuntimeItem)
    returns (result: Result<Answer>, attempts: seq<RetryAttempt>, ghost calls: seq<Call>)
    modifies remote`time, remote`ticks, remote`asked, remote`calls, remote`sleeps, remote`drawn
    ensures old(remote.time) <= remote.time
    ensures remote.calls == old(remote.calls) + calls
    ensures p.IsRun(calls, item)
    ensures forall i :: 0 <= i < |calls| ==> old(remote.time) <= calls[i].at <= remote.time
    ensures result == AsResult(Outcome(calls)) && (p.maxRetries < 0 ==> result == Ok(Blank))
    ensures Records(p, attempts, calls)
    ensures result.Ok? ==> |attempts| == if calls == [] then 0 else |calls| - 1
    ensures remote.sleeps == old(remote.sleeps) + Delays(attempts)
    ensures old(remote.drawn) <= remote.drawn && DelaysFrom(p, attempts, remote.drawn[|old(remote.drawn)|..])
    ensures FairDraws(remote.draws) && 0.0 <= p.jitter < 1.0 && p.baseDelay >= 0.0 && p.factor >= 0.0 && p.maxDelay >= 0.0 ==>
              BacksOff(p, attempts)
    ensures FairDraws(remote.draws) && p.Separates() ==> Grows(p, attempts)
    ensures Sum(remote.sleeps[|old(remote.sleeps)|..]) <= RMax(0.0, p.maxRetries as real) * RMax(0.1, p.maxDelay)
  {
    hide IsRetryable, Sum, BacksOff, Grows, RetryPolicy.Separates, RetryPolicy.Delay;
    ghost var drawn: seq<real> := [];
    attempts, calls := [], [];
    result := Ok(Blank);
    var attempt := 1;
    while attempt < p.maxRetries + 2
      invariant 1 <= attempt
      invariant old(remote.time) <= remote.time
      invariant attempt == 1 ==> result == Ok(Blank)
      invariant attempt > 1 ==> attempt <= p.maxRetries + 1
      invariant |calls| == |attempts| == attempt - 1
      invariant remote.calls == old(remote.calls) + calls
      invariant forall i :: 0 <= i < |calls| ==>
                              && calls[i].item == item && old(remote.time) <= calls[i].at <= remote.time
                              && calls[i].answer.Raised? && IsRetryable(calls[i].answer.error)
      invariant Records(p, attempts, calls)
      invariant remote.sleeps == old(remote.sleeps) + Delays(attempts)
      invariant DelaysFrom(p, attempts, drawn) && remote.drawn == old(remote.drawn) + drawn
      invariant FairDraws(remote.draws) ==> forall i :: 0 <= i < |drawn| ==> 0.0 <= drawn[i] < 1.0
    {
      var answer := remote.Fetch(item);
      calls := calls + [Call(item, remote.time, answer)];
      result := AsResult(answer);
      if !answer.Raised? || !p.ShouldRetry(answer.error, attempt) {
        break;
      }
      var draw := remote.Random();
      var delay := p.Delay(attempt, draw);
      drawn := drawn + [draw];
      attempts := attempts + [RetryAttempt(attempt, answer.error, delay)];
      remote.Sleep(delay);
      attempt := attempt + 1;
    }
    SleepBound(p, attempts, calls);
    assert remote.drawn[|old(remote.drawn)|..] == drawn;
    if FairDraws(remote.draws) {
      DrawnDelays(p, attempts, drawn);
    }
    assert remote.sleeps[|old(remote.sleeps)|..] == Delays(attempts);
  }

  ghost function Delays(attempts: seq<RetryAttempt>): (r: seq<real>)
    ensures |r| == |attempts|
    ensures forall i :: 0 <= i < |attempts| ==> r[i] == attempts[i].delay
  {
    seq(|attempts|, i requires 0 <= i < |attempts| => attempts[i].delay)
  }

  /** The recorded delays add up to at most the longest delay per retry. */
  lemma SleepBound(p: RetryPolicy, attempts: seq<RetryAttempt>, calls: seq<Call>)
    requires Records(p, attempts, calls)
    requires |attempts| == 0 || |attempts| <= p.maxRetries
    ensures Sum(Delays(attempts)) <= RMax(0.0, p.maxRetries as real) * RMax(0.1, p.maxDelay)
  {
    hide Sum;
    var bound := RMax(0.1, p.maxDelay);
    SumBound(Delays(attempts), bound);
    AtMostTimes(|attempts| as real, RMax(0.0, p.maxRetries as real), bound);
  }

  lemma AtMostTimes(a: real, b: real, c: real)
    requires a <= b && c >= 0.0
    ensures a * c <= b * c
  {
    ScaleLess(c, a, b);
    assert a * c == c * a && b * c == c * b;
  }
}
