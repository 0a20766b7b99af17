/** Polling the schedules (src/decision_system/connectors/sync_runner.py, `run_due_schedules`):
    every due schedule gives one sync of its connector. */
module ScheduledRuns {
  import opened Prelude
  import opened Schedules
  import opened SyncRuns
  import opened SyncState
  import opened Contents
  import opened EvidenceBridge

  /** A sync that was run for a due schedule. */
  datatype Run = Run(scope: Scope, succeeded: bool, at: int)

  /** The schedules of a connector after some syncs. */
  function AfterRuns(l: seq<Schedule>, runs: seq<Run>, scope: Scope): seq<Schedule> {
    if runs == [] then l
    else
      var before, r := AfterRuns(l, runs[..|runs| - 1], scope), runs[|runs| - 1];
      if r.scope == scope && r.succeeded then Completed(before, r.at) else before
  }

  /** The state lists of all connectors, and the evidence store. */
  datatype Stores = Stores(items: map<Scope, seq<SyncItem>>, evidence: Pass)
  {
    function Of(scope: Scope): seq<SyncItem> {
      if scope in items then items[scope] else []
    }
  }

  /** What one attempt to sync a connector does to them. */
  ghost predicate Attempted(before: Stores, after: Stores, scope: Scope, a: Attempt, codec: Codec) {
    if a.configured && a.fetched.Some? then
      && Synced(before.Of(scope), a.fetched.value, codec, after.Of(scope))
      && (forall s :: s != scope ==> after.Of(s) == before.Of(s))
      && after.evidence == NextEvidenceStore(before.evidence, before.Of(scope), a.fetched.value, codec, scope)
    else after == before
  }

  ghost function StoresOf(runner: SyncRunner): Stores
    reads runner.syncStore, runner.sources
  {
    Stores(runner.syncStore.files, runner.Store())
  }

  /** The stores over a poll: each due schedule gives its connector one attempt, with what is fetched then. */
  ghost predicate AttemptedAll(states: seq<Stores>, runs: seq<Run>, remote: nat -> Attempt, codec: Codec) {
    && |states| == |runs| + 1
    && forall i :: 0 <= i < |runs| ==> Attempted(states[i], states[i + 1], runs[i].scope, remote(i), codec)
  }

  lemma AttemptedNext(states: seq<Stores>, runs: seq<Run>, remote: nat -> Attempt, codec: Codec, run: Run, after: Stores)
    requires AttemptedAll(states, runs, remote, codec)
    requires Attempted(states[|runs|], after, run.scope, remote(|runs|), codec)
    ensures AttemptedAll(states + [after], runs + [run], remote, codec)
  {
    hide Attempted;
  }

  /** One attempt. */
  method SyncOne(runner: SyncRunner, scope: Scope, a: Attempt) returns (result: SyncResult)
    requires runner.Valid() && (|scope.workspace| > 0 ==> runner.sources.workspaceId == scope.workspace)
    modifies runner.syncStore, runner.scheduleStore, runner.sources
    ensures runner.Valid()
    ensures Attempted(old(StoresOf(runner)), StoresOf(runner), scope, a, runner.codec)
    ensures forall s :: s != scope ==> runner.scheduleStore.Schedules(s) == old(runner.scheduleStore.Schedules(s))
    ensures result == if a.configured && a.fetched.Some? then Reported(old(StoresOf(runner)).Of(scope), a.fetched.value, runner.codec) else SyncFailed
    ensures runner.scheduleStore.Schedules(scope) ==
            if result.SyncCompleted? then Completed(old(runner.scheduleStore.Schedules(scope)), a.completedAt)
            else old(runner.scheduleStore.Schedules(scope))
  {
    hide Synced, SyncRunner.Valid, NextEvidenceStore, Completed, Number, Gone;
    result := runner.SyncConnector(scope, a.configured, a.fetched, a.completedAt);
    assert forall s :: StoresOf(runner).Of(s) == runner.syncStore.Items(s);
  }

  /** The loop over the due schedules, which are listed before the first sync. */
  method RunDueSchedules(runner: SyncRunner, scopes: seq<Scope>, now: int, remote: nat -> Attempt)
    returns (results: seq<SyncResult>, ghost runs: seq<Run>, ghost states: seq<Stores>)
    requires runner.Valid()
    requires forall i :: 0 <= i < |scopes| && |scopes[i].workspace| > 0 ==> runner.sources.workspaceId == scopes[i].workspace
    modifies runner.syncStore, runner.scheduleStore, runner.sources
    ensures runner.Valid()
    ensures ForDue(runs, DueList(old(runner.scheduleStore.files), scopes, now))
    ensures |states| == |runs| + 1 && AttemptedAll(states, runs, remote, runner.codec)
    ensures states[0] == old(StoresOf(runner)) && states[|states| - 1] == StoresOf(runner)
    ensures |results| == |runs| && forall i :: 0 <= i < |runs| ==>
              && (runs[i].succeeded <==> results[i].SyncCompleted?)
              && results[i] == if remote(i).configured && remote(i).fetched.Some?
                               then Reported(states[i].Of(runs[i].scope), remote(i).fetched.value, runner.codec) else SyncFailed
    ensures forall i :: 0 <= i < |runs| ==> runs[i].at == remote(i).completedAt
    ensures forall scope :: runner.scheduleStore.Schedules(scope) == AfterRuns(old(runner.scheduleStore.Schedules(scope)), runs, scope)
  {
    hide Completed, Synced, DueList, AfterRuns, ForDue, SyncRunner.Valid, NextEvidenceStore, AttemptedAll, Attempted, Reported;
    var due := runner.scheduleStore.ListDueSchedules(scopes, now);
    DueScopes(runner.scheduleStore.files, scopes, now);
    results, runs, states := [], [], [StoresOf(runner)];
    NothingRun(runner, remote);
    for n := 0 to |due|
      invariant runner.Valid() && |results| == n && |runs| == n
      invariant ForDue(runs, due[..n])
      invariant |states| == n + 1 && AttemptedAll(states, runs, remote, runner.codec)
      invariant states[0] == old(StoresOf(runner)) && states[n] == StoresOf(runner)
      invariant forall i :: 0 <= i < n ==>
                  && (runs[i].succeeded <==> results[i].SyncCompleted?) && runs[i].at == remote(i).completedAt
                  && results[i] == if remote(i).configured && remote(i).fetched.Some?
                                   then Reported(states[i].Of(runs[i].scope), remote(i).fetched.value, runner.codec) else SyncFailed
      invariant forall scope :: runner.scheduleStore.Schedules(scope) == AfterRuns(old(runner.scheduleStore.Schedules(scope)), runs, scope)
    {
      var a := remote(n);
      assert due[n] in due;
      var result := SyncOne(runner, due[n].scope, a);
      results := results + [result];
      ghost var run := Run(due[n].scope, result.SyncCompleted?, a.completedAt);
      forall scope ensures runner.scheduleStore.Schedules(scope) == AfterRuns(old(runner.scheduleStore.Schedules(scope)), runs + [run], scope) {
        OneMoreRun(old(runner.scheduleStore.Schedules(scope)), runs, run, scope);
      }
      ForDueNext(runs, due, n, run);
      AttemptedNext(states, runs, remote, runner.codec, run, StoresOf(runner));
      states := states + [StoresOf(runner)];
      runs := runs + [run];
    }
    assert due[..|due|] == due;
  }

  lemma NothingRun(runner: SyncRunner, remote: nat -> Attempt)
    ensures AttemptedAll([StoresOf(runner)], [], remote, runner.codec)
    ensures ForDue([], []) && forall scope :: AfterRuns(runner.scheduleStore.Schedules(scope), [], scope) == runner.scheduleStore.Schedules(scope)
  {
  }

  lemma OneMoreRun(l: seq<Schedule>, runs: seq<Run>, run: Run, scope: Scope)
    ensures AfterRuns(l, runs + [run], scope) ==
            var before := AfterRuns(l, runs, scope); if run.scope == scope && run.succeeded then Completed(before, run.at) else before
  {
    hide Completed;
    assert (runs + [run])[..|runs|] == runs;
  }

  lemma ForDueNext(runs: seq<Run>, due: seq<Due>, n: nat, run: Run)
    requires n < |due| && ForDue(runs, due[..n]) && run.scope == due[n].scope
    ensures ForDue(runs + [run], due[..n + 1])
  {
  }

  /** One sync for each due schedule, in order. */
  ghost predicate ForDue(runs: seq<Run>, due: seq<Due>) {
    |runs| == |due| && forall i :: 0 <= i < |due| ==> runs[i].scope == due[i].scope
  }

  lemma {:induction false} DueScopes(files: map<Scope, seq<Schedule>>, scopes: seq<Scope>, now: int)
    ensures forall d :: d in DueList(files, scopes, now) ==> d.scope in scopes
  {
    if scopes != [] {
      var scope := scopes[|scopes| - 1];
      DueScopes(files, scopes[..|scopes| - 1], now);
      DueOfScope(if scope in files then files[scope] else [], scope, now);
    }
  }

  lemma {:induction false} DueOfScope(l: seq<Schedule>, scope: Scope, now: int)
    ensures forall i :: 0 <= i < |DueOf(l, scope, now)| ==> DueOf(l, scope, now)[i].scope == scope
  {
    if l != [] {
      DueOfScope(l[..|l| - 1], scope, now);
    }
  }

  /** The syncs of one connector. */
  function RunsFor(runs: seq<Run>, scope: Scope): seq<Run> {
    if runs == [] then []
    else RunsFor(runs[..|runs| - 1], scope) + if runs[|runs| - 1].scope == scope then [runs[|runs| - 1]] else []
  }

  /** A connector is synced as often in one poll as it has due schedules. */
  lemma {:induction false} SyncedPerSchedule(files: map<Scope, seq<Schedule>>, scopes: seq<Scope>, now: int, runs: seq<Run>, scope: Scope)
    requires ForDue(runs, DueList(files, scopes, now)) && NoDuplicates(scopes)
    ensures |RunsFor(runs, scope)| == if scope in scopes && scope in files then |DueOf(files[scope], scope, now)| else 0
  {
    hide DueOf, ForDue, RunsFor;
    if scopes == [] {
      NoRuns(runs, scope);
    } else {
      var rest, last := scopes[..|scopes| - 1], scopes[|scopes| - 1];
      var front, back := DueList(files, rest, now), DueOf(if last in files then files[last] else [], last, now);
      var a, b := SplitRuns(runs, front, back);
      SyncedPerSchedule(files, rest, now, a, scope);
      RunsForConcat(a, b, scope);
      DueOfScope(if last in files then files[last] else [], last, now);
      RunsForSame(b, back, last, scope);
      NothingDue(last, now);
      assert scopes == rest + [last];
      assert last !in rest;
    }
  }

  lemma NoRuns(runs: seq<Run>, scope: Scope)
    requires ForDue(runs, [])
    ensures RunsFor(runs, scope) == []
  {
  }

  lemma SplitRuns(runs: seq<Run>, front: seq<Due>, back: seq<Due>) returns (a: seq<Run>, b: seq<Run>)
    requires ForDue(runs, front + back)
    ensures runs == a + b && ForDue(a, front) && ForDue(b, back)
  {
    a, b := runs[..|front|], runs[|front|..];
    forall i | 0 <= i < |back| ensures b[i].scope == back[i].scope {
      assert runs[|front| + i].scope == (front + back)[|front| + i].scope;
    }
  }

  lemma NothingDue(scope: Scope, now: int)
    ensures DueOf([], scope, now) == []
  {
  }

  lemma {:induction false} RunsForConcat(a: seq<Run>, b: seq<Run>, scope: Scope)
    ensures RunsFor(a + b, scope) == RunsFor(a, scope) + RunsFor(b, scope)
  {
    if b == [] {
      assert a + b == a;
    } else {
      assert (a + b)[..|a + b| - 1] == a + b[..|b| - 1];
      RunsForConcat(a, b[..|b| - 1], scope);
    }
  }

  lemma {:induction false} RunsForSame(runs: seq<Run>, due: seq<Due>, same: Scope, scope: Scope)
    requires ForDue(runs, due) && forall i :: 0 <= i < |due| ==> due[i].scope == same
    ensures |runs| == |due| && RunsFor(runs, scope) == if scope == same then runs else []
  {
    hide RunsFor;
    if runs == [] {
      NoRuns(runs, scope);
    } else {
      var rest := runs[..|runs| - 1];
      RunsForSame(rest, due[..|rest|], same, scope);
      RunsForLast(runs, scope);
      assert runs == rest + [runs[|rest|]];
      assert runs[|rest|].scope == same;
    }
  }

  lemma RunsForLast(runs: seq<Run>, scope: Scope)
    requires runs != []
    ensures var rest, last := runs[..|runs| - 1], runs[|runs| - 1];
            RunsFor(runs, scope) == if last.scope == scope then RunsFor(rest, scope) + [last] else RunsFor(rest, scope)
  {
  }

  /** Only the syncs of a connector matter for its schedules. */
  lemma {:induction false} OnlyOwnRuns(l: seq<Schedule>, runs: seq<Run>, scope: Scope)
    ensures AfterRuns(l, runs, scope) == AfterRuns(l, RunsFor(runs, scope), scope)
  {
    hide Completed;
    if runs != [] {
      var rest := runs[..|runs| - 1];
      OnlyOwnRuns(l, rest, scope);
      var own, r := RunsFor(rest, scope), runs[|runs| - 1];
      if r.scope == scope {
        assert (own + [r])[..|own|] == own;
      } else {
        assert own + [] == own;
      }
    }
  }

  /** A poll takes a connector's only schedule one step of `Polled` further: it is run if and only if
      it is due, and a successful run is noted. */
  lemma PollIsStep(files: map<Scope, seq<Schedule>>, scopes: seq<Scope>, now: int, runs: seq<Run>, scope: Scope, s: Schedule)
    requires ForDue(runs, DueList(files, scopes, now)) && NoDuplicates(scopes)
    requires scope in scopes && scope in files && files[scope] == [s]
    ensures |RunsFor(runs, scope)| == if s.IsDue(now) then 1 else 0
    ensures AfterRuns([s], runs, scope) ==
            if s.IsDue(now) && RunsFor(runs, scope)[0].succeeded then Completed([s], RunsFor(runs, scope)[0].at) else [s]
  {
    hide Schedule.IsDue, Completed, DueOf, DueList, ForDue, RunsFor, AfterRuns, NoDuplicates;
    SyncedPerSchedule(files, scopes, now, runs, scope);
    OneDue(s, scope, now);
    OnlyOwnRuns([s], runs, scope);
    RunsForMembers(runs, scope);
    AfterOne(s, RunsFor(runs, scope), scope);
  }

  lemma OneDue(s: Schedule, scope: Scope, now: int)
    ensures |DueOf([s], scope, now)| == if s.IsDue(now) then 1 else 0
  {
    hide Schedule.IsDue;
    assert [s][..0] == [];
  }

  lemma AfterOne(s: Schedule, own: seq<Run>, scope: Scope)
    requires |own| <= 1 && (|own| == 1 ==> own[0].scope == scope)
    ensures AfterRuns([s], own, scope) == if |own| == 1 && own[0].succeeded then Completed([s], own[0].at) else [s]
  {
    hide Completed;
    if |own| == 1 {
      assert own[..0] == [];
    }
  }

  lemma {:induction false} RunsForMembers(runs: seq<Run>, scope: Scope)
    ensures forall i :: 0 <= i < |RunsFor(runs, scope)| ==> RunsFor(runs, scope)[i].scope == scope
  {
    if runs != [] {
      RunsForMembers(runs[..|runs| - 1], scope);
    }
  }

  lemma {:induction false} RunsForTimes(runs: seq<Run>, scope: Scope, low: int, high: int)
    requires forall i :: 0 <= i < |runs| ==> low <= runs[i].at <= high
    ensures forall i :: 0 <= i < |RunsFor(runs, scope)| ==> low <= RunsFor(runs, scope)[i].at <= high
  {
    if runs != [] {
      RunsForTimes(runs[..|runs| - 1], scope, low, high);
    }
  }

  /** Polling again and again: what happens to a connector's only schedule is such a polling run. The
      clock does not run backwards: syncs are completed between one poll and the next. */
  method PollRepeatedly(runner: SyncRunner, scopes: seq<Scope>, scope: Scope, times: seq<int>, remotes: seq<nat -> Attempt>)
    returns (ghost states: seq<Schedule>, ghost polls: seq<Poll>)
    requires runner.Valid() && NoDuplicates(scopes) && scope in scopes
    requires forall i :: 0 <= i < |scopes| && |scopes[i].workspace| > 0 ==> runner.sources.workspaceId == scopes[i].workspace
    requires |runner.scheduleStore.Schedules(scope)| == 1
    requires var s := runner.scheduleStore.Schedules(scope)[0];
             s.enabled && s.kind == Interval && s.intervalMinutes.Some? && s.intervalMinutes.value >= 1
    requires |times| == |remotes| + 1
    requires forall n, k: nat :: 0 <= n < |remotes| ==> times[n] <= remotes[n](k).completedAt <= times[n + 1]
    modifies runner.syncStore, runner.scheduleStore, runner.sources
    ensures runner.Valid()
    ensures Polled(states, polls) && |polls| == |remotes|
    ensures forall n :: 0 <= n < |polls| ==> polls[n].at == times[n]
    ensures runner.scheduleStore.Schedules(scope) == [states[|polls|]]
  {
    hide SyncRunner.Valid, Schedule.CalculateNextRun, Schedule.IsDue, Completed;
    ghost var s := runner.scheduleStore.Schedules(scope)[0];
    assert runner.scheduleStore.Schedules(scope) == [s];
    StoredIsCached(runner, scope);
    states, polls := [s], [];
    assert Polled(states, polls);
    hide Polled;
    for n := 0 to |remotes|
      invariant runner.Valid() && |polls| == n && |states| == n + 1 && Polled(states, polls)
      invariant runner.scheduleStore.Schedules(scope) == [states[n]]
      invariant forall i :: 0 <= i < n ==> polls[i].at == times[i] && polls[i].done <= times[i + 1]
    {
      ghost var poll, after := PollOnce(runner, scopes, scope, times[n], times[n + 1], remotes[n], states[n]);
      OneMorePoll(states, polls, poll, after);
      states, polls := states + [after], polls + [poll];
    }
  }

  method PollOnce(runner: SyncRunner, scopes: seq<Scope>, scope: Scope, now: int, next: int, remote: nat -> Attempt, ghost before: Schedule)
    returns (ghost poll: Poll, ghost after: Schedule)
    requires runner.Valid() && NoDuplicates(scopes) && scope in scopes
    requires forall i :: 0 <= i < |scopes| && |scopes[i].workspace| > 0 ==> runner.sources.workspaceId == scopes[i].workspace
    requires runner.scheduleStore.Schedules(scope) == [before]
    requires forall k: nat :: now <= remote(k).completedAt <= next
    modifies runner.syncStore, runner.scheduleStore, runner.sources
    ensures runner.Valid() && runner.scheduleStore.Schedules(scope) == [after]
    ensures poll.at == now && now <= poll.done <= next && poll.ran == before.IsDue(now)
    ensures [after] == if poll.ran && poll.succeeded then Completed([before], poll.done) else [before]
  {
    hide Completed, SyncRunner.Valid, Schedule.CalculateNextRun, Schedule.IsDue, AfterRuns, RunsFor, DueList, ForDue;
    ghost var files := runner.scheduleStore.files;
    assert scope in files && files[scope] == [before];
    assert now <= remote(0).completedAt <= next;
    var results, runs, states := RunDueSchedules(runner, scopes, now, remote);
    PollIsStep(files, scopes, now, runs, scope, before);
    RunsForTimes(runs, scope, now, next);
    ghost var own := RunsFor(runs, scope);
    poll := if own == [] then Poll(now, false, false, now) else Poll(now, true, own[0].succeeded, own[0].at);
    OneSchedule(before, own);
    after := runner.scheduleStore.Schedules(scope)[0];
  }

  lemma OneSchedule(s: Schedule, own: seq<Run>)
    ensures own != [] ==> |Completed([s], own[0].at)| == 1
  {
  }

  lemma StoredIsCached(runner: SyncRunner, scope: Scope)
    requires runner.Valid() && |runner.scheduleStore.Schedules(scope)| == 1
    ensures runner.scheduleStore.Schedules(scope)[0].Cached()
  {
    assert AllCached(runner.scheduleStore.Schedules(scope));
  }

  lemma OneMorePoll(states: seq<Schedule>, polls: seq<Poll>, poll: Poll, after: Schedule)
    requires Polled(states, polls)
    requires poll.at <= poll.done && (polls != [] ==> polls[|polls| - 1].done <= poll.at)
    requires var last := states[|states| - 1];
             && poll.ran == last.IsDue(poll.at)
             && [after] == if poll.ran && poll.succeeded then Completed([last], poll.done) else [last]
    ensures Polled(states + [after], polls + [poll])
  {
    hide Schedule.IsDue, Schedule.CalculateNextRun;
    var n := |polls|;
    assert (states + [after])[n + 1] == after && (states + [after])[n] == states[n];
  }
}
