/** The per-connector rate-limit state (src/decision_system/connectors/rate_limiter.py).

    The limiter keeps a mutable flag which is cleared lazily, by whoever polls it first after
    the window has passed. The specification is a function of what has been recorded, in which
    polling does not occur at all. */
module RateLimits {
  import opened Prelude

  datatype RateLimitState = RateLimitState(
    isLimited: bool, retryAfter: real, remaining: Option<int>, reset: Option<real>,
    limitedAt: real, recoveredAt: Option<real>)

  const FRESH := RateLimitState(false, 0.0, None, None, 0.0, None)

  datatype RateLimitRecord = RateLimitRecord(
    connector: string, retryAfter: real, remaining: Option<int>, at: real, sourceUrl: string)

  /** The headers the limiter reads, each present only if it parses as a number. */
  datatype Headers = Headers(remaining: Option<int>, reset: Option<real>, retryAfter: Option<real>)

  const NO_HEADERS := Headers(None, None, None)

  const DEFAULT_RETRY_AFTER: real := 60.0
  const MAX_HISTORY: nat := 100

  /** What the limiter was told: a rate-limit response opened a window, a success closed it. */
  datatype Event = Opened(connector: string, at: real, retryAfter: real) | Closed(connector: string)

  /** The window that is in force for a connector: the one opened last, unless closed since. */
  ghost function Window(log: seq<Event>, connector: string): Option<(real, real)> {
    if log == [] then None
    else
      var last := log[|log| - 1];
      if last.connector != connector then Window(log[..|log| - 1], connector)
      else if last.Opened? then Some((last.at, last.retryAfter))
      else None
  }

  /** Whether a connector must hold back at time `now`. */
  ghost predicate LimitedAt(log: seq<Event>, connector: string, now: real) {
    var w := Window(log, connector);
    w.Some? && now - w.value.0 < w.value.1
  }

  lemma WindowAppend(log: seq<Event>, e: Event, connector: string)
    ensures Window(log + [e], connector) ==
            if e.connector != connector then Window(log, connector)
            else if e.Opened? then Some((e.at, e.retryAfter)) else None
  {
    assert (log + [e])[..|log|] == log;
  }

  /** The last `n` elements, or all of them when there are fewer. */
  function LastN<T>(s: seq<T>, n: nat): (r: seq<T>)
    ensures |r| == Min(|s|, n)
    ensures r == s[|s| - |r|..]
  {
    if |s| <= n then s else s[|s| - n..]
  }

  /** The flag of a connector agrees with its window at every time from `now` on: when it is set,
      the window is exactly the recorded one; when it is not, any window has passed. */
  ghost predicate Agrees(states: map<string, RateLimitState>, log: seq<Event>, now: real, connector: string) {
    var w := Window(log, connector);
    if connector in states && states[connector].isLimited
    then w == Some((states[connector].limitedAt, states[connector].retryAfter))
    else w.Some? ==> now - w.value.0 >= w.value.1
  }

  ghost predicate AllAgree(states: map<string, RateLimitState>, log: seq<Event>, now: real) {
    forall c :: Agrees(states, log, now, c)
  }

  /** Writing the state of one connector, and at most one event about it, keeps the agreement of
      all connectors once it holds of that one. */
  lemma AgreeAfter(states: map<string, RateLimitState>, log: seq<Event>, now: real,
                   connector: string, s: RateLimitState, log': seq<Event>, now': real)
    requires AllAgree(states, log, now) && now <= now'
    requires log' == log || (|log'| > 0 && log' == log + [log'[|log'| - 1]] && log'[|log'| - 1].connector == connector)
    requires Agrees(states[connector := s], log', now', connector)
    ensures AllAgree(states[connector := s], log', now')
  {
    var states' := states[connector := s];
    forall c ensures Agrees(states', log', now', c) {
      assert Agrees(states, log, now, c);
      if log' != log {
        WindowAppend(log, log'[|log'| - 1], c);
      }
    }
  }

  class RateLimiter {
    var states: map<string, RateLimitState>
    var history: seq<RateLimitRecord>
    ghost var log: seq<Event>
    ghost var allRecords: seq<RateLimitRecord>
    ghost var now: real

    ghost predicate Valid()
      reads this
    {
      && AllAgree(states, log, now)
      && history == LastN(allRecords, MAX_HISTORY)
    }

    constructor (start: real)
      ensures Valid() && log == [] && allRecords == [] && history == [] && now == start
      ensures forall c :: !StateOf(c).isLimited && StateOf(c).remaining.None? && StateOf(c).reset.None? && StateOf(c).recoveredAt.None?
    {
      states, history, log, allRecords, now := map[], [], [], [], start;
    }

    function StateOf(connector: string): RateLimitState
      reads this
    {
      if connector in states then states[connector] else FRESH
    }

    /** A state whose window has just been opened, with what the headers say. */
    ghost predicate IsOpened(was: RateLimitState, retryAfter: real, headers: Headers, t: real, s: RateLimitState) {
      && s.isLimited && s.limitedAt == t && s.recoveredAt == was.recoveredAt
      && s.retryAfter == (if headers.retryAfter.Some? then headers.retryAfter.value else retryAfter)
      && s.remaining == (if headers.remaining.Some? then headers.remaining else was.remaining)
      && s.reset == (if headers.reset.Some? then headers.reset else was.reset)
    }

    method Open(was: RateLimitState, retryAfter: real, headers: Headers, t: real) returns (s: RateLimitState)
      ensures IsOpened(was, retryAfter, headers, t, s)
    {
      s := was.(isLimited := true, retryAfter := retryAfter, limitedAt := t);
      if headers.remaining.Some? {
        s := s.(remaining := headers.remaining);
      }
      if headers.reset.Some? {
        s := s.(reset := headers.reset);
      }
      if headers.retryAfter.Some? {
        s := s.(retryAfter := headers.retryAfter.value);
      }
    }

    /** Opens a window at the clock reading `t`; a parsed Retry-After header takes precedence
        over the default. The history keeps the last hundred records. */
    method Record429(connector: string, retryAfter: real, headers: Headers, sourceUrl: string, t: real, t': real)
      requires Valid() && now <= t <= t'
      modifies this
      ensures Valid() && now == t'
      ensures log == old(log) + [Opened(connector, t, if headers.retryAfter.Some? then headers.retryAfter.value else retryAfter)]
      ensures |allRecords| == |old(allRecords)| + 1 && allRecords[..|old(allRecords)|] == old(allRecords)
      ensures allRecords[|old(allRecords)|] == RateLimitRecord(
                connector, if headers.retryAfter.Some? then headers.retryAfter.value else retryAfter,
                if headers.remaining.Some? then headers.remaining else old(StateOf(connector)).remaining, t', sourceUrl)
      ensures |history| == Min(|allRecords|, 100) && history == allRecords[|allRecords| - |history|..]
      ensures IsOpened(old(StateOf(connector)), retryAfter, headers, t, StateOf(connector))
      ensures forall c :: c != connector ==> StateOf(c) == old(StateOf(c))
    {
      var s := Open(StateOf(connector), retryAfter, headers, t);
      states := states[connector := s];
      var record := RateLimitRecord(connector, s.retryAfter, s.remaining, t', sourceUrl);
      history := history + [record];
      if |history| > MAX_HISTORY {
        history := history[|history| - MAX_HISTORY..];
      }
      allRecords := allRecords + [record];
      ghost var e := Opened(connector, t, s.retryAfter);
      WindowAppend(log, e, connector);
      log := log + [e];
      now := t';
      AgreeAfter(old(states), old(log), old(now), connector, s, log, now);
    }

    /** Polling answers by the recorded windows alone, whatever polls came before. */
    method CheckRateLimited(connector: string, t: real, t': real) returns (limited: bool)
      requires Valid() && now <= t <= t'
      modifies this`states, this`now
      ensures Valid() && now == t'
      ensures limited == LimitedAt(log, connector, t) == StateOf(connector).isLimited
      ensures var s, was := StateOf(connector), old(StateOf(connector));
              && s.limitedAt == was.limitedAt && s.retryAfter == was.retryAfter && s.remaining == was.remaining && s.reset == was.reset
              && s.recoveredAt == if was.isLimited && !limited then Some(t') else was.recoveredAt
      ensures forall c :: c != connector ==> StateOf(c) == old(StateOf(c))
    {
      assert Agrees(states, log, now, connector);
      var s := StateOf(connector);
      limited := s.isLimited;
      if limited && t - s.limitedAt >= s.retryAfter {
        s := s.(isLimited := false, recoveredAt := Some(t'));
        limited := false;
      }
      states := states[connector := s];
      now := t';
      AgreeAfter(old(states), log, old(now), connector, s, log, now);
    }

    method RecordSuccess(connector: string, headers: Headers, t: real)
      requires Valid() && now <= t
      modifies this`states, this`log, this`now
      ensures Valid() && now == t
      ensures log == old(log) + [Closed(connector)]
      ensures !LimitedAt(log, connector, t)
      ensures var s, was := StateOf(connector), old(StateOf(connector));
              && !s.isLimited && s.limitedAt == was.limitedAt && s.retryAfter == was.retryAfter && s.reset == was.reset
              && s.remaining == (if headers.remaining.Some? then headers.remaining else was.remaining)
              && s.recoveredAt == if was.isLimited then Some(t) else was.recoveredAt
      ensures forall c :: c != connector ==> StateOf(c) == old(StateOf(c))
    {
      assert Agrees(states, log, now, connector);
      var s := StateOf(connector);
      if headers.remaining.Some? {
        s := s.(remaining := headers.remaining);
      }
      if s.isLimited {
        s := s.(isLimited := false, recoveredAt := Some(t));
      }
      states := states[connector := s];
      WindowAppend(log, Closed(connector), connector);
      log := log + [Closed(connector)];
      now := t;
      AgreeAfter(old(states), old(log), old(now), connector, s, log, now);
    }

    /** The seconds left in the window, seen at the second of two clock readings; never
        negative, and positive only while the connector is limited. */
    method GetRetryAfter(connector: string, t: real, t': real) returns (left: real)
      requires Valid() && now <= t <= t'
      modifies this`states, this`now
      ensures Valid() && now == t'
      ensures left == if !LimitedAt(log, connector, t) then 0.0
                      else RMax(0.0, Window(log, connector).value.0 + Window(log, connector).value.1 - t')
    {
      var limited := CheckRateLimited(connector, t, t');
      assert Agrees(states, log, now, connector);
      if !limited {
        return 0.0;
      }
      var s := StateOf(connector);
      left := RMax(0.0, s.retryAfter - (t' - s.limitedAt));
    }
  }
}
