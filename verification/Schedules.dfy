/** Sync schedules and the cached time of their next run
    (src/decision_system/connectors/schedule.py). Times are seconds. */
module Schedules {
  import opened Prelude

  datatype ScheduleKind = Manual | Interval | Cron | Unknown

  datatype Schedule = Schedule(
    id: string, enabled: bool, kind: ScheduleKind, intervalMinutes: Option<int>,
    nextRunAt: Option<int>, lastRunAt: Option<int>, createdAt: int)
  {
    /** The next run: an interval after the last run, or after the creation if there was none. A
        cron schedule falls back to its interval, of any sign but zero. */
    function CalculateNextRun(): Option<int> {
      if !enabled then None
      else
        var base := if lastRunAt.Some? then lastRunAt.value else createdAt;
        match kind
        case Interval => if intervalMinutes.None? || intervalMinutes.value < 1 then None else Some(base + 60 * intervalMinutes.value)
        case Cron => if intervalMinutes.None? || intervalMinutes.value == 0 then None else Some(base + 60 * intervalMinutes.value)
        case _ => None
    }

    predicate IsDue(now: int) {
      enabled && kind != Manual &&
      var next := if nextRunAt.Some? then nextRunAt else CalculateNextRun();
      next.Some? && now >= next.value
    }

    predicate Cached() {
      nextRunAt == CalculateNextRun()
    }

    /** The record with its cache refreshed. */
    function Refreshed(): (s: Schedule)
      ensures s.Cached()
    {
      this.(nextRunAt := CalculateNextRun())
    }

    function Ran(at: int): Schedule {
      this.(lastRunAt := Some(at)).Refreshed()
    }

    function Toggled(): Schedule {
      this.(enabled := !enabled).Refreshed()
    }
  }

  /** When a stored schedule is due: it is enabled, it has an interval that counts for its kind, and that
      many minutes have passed since its last run, or since it was created. */
  lemma DueWhen(s: Schedule, now: int)
    requires s.Cached()
    ensures s.IsDue(now) <==>
            && s.enabled && s.intervalMinutes.Some?
            && ((s.kind == Interval && s.intervalMinutes.value >= 1) || (s.kind == Cron && s.intervalMinutes.value != 0))
            && now - (if s.lastRunAt.Some? then s.lastRunAt.value else s.createdAt) >= 60 * s.intervalMinutes.value
  {
  }

  /** Switching a schedule off and on again: while it is off it is never due, and then it is as before. */
  lemma ToggledTwice(s: Schedule, now: int)
    requires s.Cached()
    ensures s.Toggled().enabled == !s.enabled && s.Toggled().Cached()
    ensures s.enabled ==> !s.Toggled().IsDue(now)
    ensures s.Toggled().Toggled() == s
  {
  }

  /** A run changes the last run, and the next one with it, and nothing else. */
  lemma RanIsPutOff(s: Schedule, at: int, now: int)
    requires s.Cached() && s.kind == Interval
    ensures s.Ran(at).Cached() && s.Ran(at).lastRunAt == Some(at)
    ensures s.Ran(at).id == s.id && s.Ran(at).enabled == s.enabled && s.Ran(at).kind == s.kind
    ensures s.Ran(at).intervalMinutes == s.intervalMinutes && s.Ran(at).createdAt == s.createdAt
    ensures s.Ran(at).IsDue(now) ==> now >= at + 60 * s.intervalMinutes.value
  {
  }

  ghost predicate AllCached(l: seq<Schedule>) {
    forall i :: 0 <= i < |l| ==> l[i].Cached()
  }

  /** Replacing the first record with the same id. */
  function Replace(l: seq<Schedule>, s: Schedule): Option<seq<Schedule>> {
    if l == [] then None
    else if l[0].id == s.id then Some([s] + l[1..])
    else
      var rest := Replace(l[1..], s);
      if rest.Some? then Some([l[0]] + rest.value) else None
  }

  function Find(l: seq<Schedule>, id: string): Option<Schedule> {
    if l == [] then None else if l[0].id == id then Some(l[0]) else Find(l[1..], id)
  }

  /** The search finds the first record with the id. */
  lemma {:induction false} FindAt(l: seq<Schedule>, id: string, n: nat)
    requires n <= |l| && (forall k :: 0 <= k < n ==> l[k].id != id) && (n < |l| ==> l[n].id == id)
    ensures Find(l, id) == if n == |l| then None else Some(l[n])
  {
    if n > 0 {
      FindAt(l[1..], id, n - 1);
    }
  }

  lemma {:induction false} ReplaceCached(l: seq<Schedule>, s: Schedule)
    requires AllCached(l) && s.Cached()
    ensures Replace(l, s).Some? ==> AllCached(Replace(l, s).value)
  {
    if l != [] {
      ReplaceCached(l[1..], s);
    }
  }

  lemma {:induction false} ReplaceAt(l: seq<Schedule>, s: Schedule, n: nat)
    requires n <= |l| && (forall k :: 0 <= k < n ==> l[k].id != s.id) && (n < |l| ==> l[n].id == s.id)
    ensures Replace(l, s) == if n == |l| then None else Some(l[n := s])
  {
    if n > 0 {
      ReplaceAt(l[1..], s, n - 1);
      assert n < |l| ==> [l[0]] + l[1..][n - 1 := s] == l[n := s];
    } else if |l| > 0 {
      assert [s] + l[1..] == l[0 := s];
    }
  }

  function Without(l: seq<Schedule>, id: string): (r: seq<Schedule>)
    ensures |r| <= |l|
    ensures AllCached(l) ==> AllCached(r)
  {
    if l == [] then []
    else Without(l[..|l| - 1], id) + if l[|l| - 1].id == id then [] else [l[|l| - 1]]
  }

  /** The positions of the records with another id. */
  function Others(l: seq<Schedule>, id: string): (at: seq<nat>)
    ensures forall i :: 0 <= i < |at| ==> at[i] < |l|
  {
    if l == [] then []
    else
      var n := |l| - 1;
      Others(l[..n], id) + if l[n].id == id then [] else [n]
  }

  /** No record with the id remains, and all others stay, in order. */
  lemma {:induction false} WithoutKeeps(l: seq<Schedule>, id: string)
    ensures |Without(l, id)| == |Others(l, id)|
    ensures forall i :: 0 <= i < |Others(l, id)| ==> Without(l, id)[i] == l[Others(l, id)[i]]
    ensures forall i, j :: 0 <= i < j < |Others(l, id)| ==> Others(l, id)[i] < Others(l, id)[j]
  {
    hide AllCached;
    if l != [] {
      WithoutKeeps(l[..|l| - 1], id);
    }
  }

  lemma {:induction false} OthersIff(l: seq<Schedule>, id: string, k: nat)
    requires k < |l|
    ensures k in Others(l, id) <==> l[k].id != id
  {
    var n := |l| - 1;
    if k < n {
      OthersIff(l[..n], id, k);
    }
  }

  /** A schedule that is due now. */
  datatype Due = Due(scope: Scope, schedule: Schedule)

  function DueOf(l: seq<Schedule>, scope: Scope, now: int): seq<Due> {
    if l == [] then []
    else
      var s := l[|l| - 1];
      DueOf(l[..|l| - 1], scope, now) + if s.IsDue(now) then [Due(scope, s)] else []
  }

  function DueList(files: map<Scope, seq<Schedule>>, scopes: seq<Scope>, now: int): seq<Due> {
    if scopes == [] then []
    else
      var scope := scopes[|scopes| - 1];
      DueList(files, scopes[..|scopes| - 1], now) + DueOf(if scope in files then files[scope] else [], scope, now)
  }

  lemma {:induction false} DueOfIff(l: seq<Schedule>, scope: Scope, now: int, d: Due)
    ensures d in DueOf(l, scope, now) <==> d.scope == scope && d.schedule in l && d.schedule.IsDue(now)
  {
    hide Schedule.IsDue;
    if l != [] {
      DueOfIff(l[..|l| - 1], scope, now, d);
      assert l == l[..|l| - 1] + [l[|l| - 1]];
    }
  }

  /** A schedule is listed if and only if it is stored in one of the scopes and is due. */
  lemma {:induction false} DueListIff(files: map<Scope, seq<Schedule>>, scopes: seq<Scope>, now: int, d: Due)
    ensures d in DueList(files, scopes, now) <==>
            d.scope in scopes && d.scope in files && d.schedule in files[d.scope] && d.schedule.IsDue(now)
  {
    hide Schedule.IsDue;
    if scopes != [] {
      var scope := scopes[|scopes| - 1];
      DueListIff(files, scopes[..|scopes| - 1], now, d);
      DueOfIff(if scope in files then files[scope] else [], scope, now, d);
      assert scopes == scopes[..|scopes| - 1] + [scope];
    }
  }

  class ScheduleStore {
    var files: map<Scope, seq<Schedule>>

    /** Every stored record has its next run cached. */
    ghost predicate Valid()
      reads this
    {
      forall s :: s in files ==> AllCached(files[s])
    }

    constructor ()
      ensures Valid() && files == map[]
    {
      files := map[];
    }

    function Schedules(scope: Scope): seq<Schedule>
      reads this
    {
      if scope in files then files[scope] else []
    }

    method CreateSchedule(scope: Scope, schedule: Schedule)
      requires Valid()
      modifies this
      ensures Valid() && files == old(files)[scope := old(Schedules(scope)) + [schedule.Refreshed()]]
    {
      hide Schedule.Cached, Schedule.Refreshed;
      files := files[scope := Schedules(scope) + [schedule.Refreshed()]];
    }

    /** Writes a changed record over the first one with its id, refreshing the cache. */
    method UpdateSchedule(scope: Scope, schedule: Schedule) returns (updated: Option<Schedule>)
      requires Valid()
      modifies this
      ensures Valid()
      ensures var r := Replace(old(Schedules(scope)), schedule.Refreshed());
              if r.None? then updated.None? && files == old(files)
              else updated == Some(schedule.Refreshed()) && files == old(files)[scope := r.value]
    {
      hide Schedule.Cached, Schedule.Refreshed;
      var l := Schedules(scope);
      var s := schedule.Refreshed();
      assert s.id == schedule.id by { RefreshedId(schedule); }
      ReplaceCached(l, s);
      var n := 0;
      while n < |l| && l[n].id != schedule.id
        invariant 0 <= n <= |l| && forall k :: 0 <= k < n ==> l[k].id != schedule.id
      {
        n := n + 1;
      }
      ReplaceAt(l, s, n);
      if n == |l| {
        return None;
      }
      files := files[scope := l[n := s]];
      updated := Some(s);
    }

    method DeleteSchedule(scope: Scope, id: string) returns (deleted: bool)
      requires Valid()
      modifies this
      ensures Valid()
      ensures deleted <==> |Without(old(Schedules(scope)), id)| < |old(Schedules(scope))|
      ensures files == if deleted then old(files)[scope := Without(old(Schedules(scope)), id)] else old(files)
    {
      var l := Schedules(scope);
      var filtered := Without(l, id);
      deleted := |filtered| < |l|;
      if deleted {
        files := files[scope := filtered];
      }
    }

    method ToggleSchedule(scope: Scope, id: string) returns (toggled: Option<Schedule>)
      requires Valid()
      modifies this
      ensures Valid()
      ensures var s := Find(old(Schedules(scope)), id);
              if s.None? then toggled.None? && files == old(files)
              else toggled == Some(s.value.Toggled())
                   && Replace(old(Schedules(scope)), s.value.Toggled()).Some?
                   && files == old(files)[scope := Replace(old(Schedules(scope)), s.value.Toggled()).value]
    {
      var s := Find(Schedules(scope), id);
      if s.None? {
        return None;
      }
      FindReplace(Schedules(scope), id, s.value.Toggled());
      assert s.value.Toggled().Refreshed() == s.value.Toggled();
      toggled := UpdateSchedule(scope, s.value.Toggled());
    }

    /** All schedules that are due, file by file in the order the directory is read. */
    method ListDueSchedules(scopes: seq<Scope>, now: int) returns (due: seq<Due>)
      ensures due == DueList(files, scopes, now)
    {
      hide Schedule.IsDue;
      due := [];
      for n := 0 to |scopes|
        invariant due == DueList(files, scopes[..n], now)
      {
        var l := Schedules(scopes[n]);
        assert scopes[..n + 1][..n] == scopes[..n];
        for m := 0 to |l|
          invariant due == DueList(files, scopes[..n], now) + DueOf(l[..m], scopes[n], now)
        {
          assert l[..m + 1][..m] == l[..m];
          if l[m].IsDue(now) {
            due := due + [Due(scopes[n], l[m])];
          }
        }
        assert l[..|l|] == l;
      }
      assert scopes[..|scopes|] == scopes;
    }

    method FindScheduleForConnector(scope: Scope) returns (s: Option<Schedule>)
      ensures s == if Schedules(scope) == [] then None else Some(Schedules(scope)[0])
    {
      var l := Schedules(scope);
      s := if l == [] then None else Some(l[0]);
    }

    /** What a successful sync does: the first schedule of the connector, and only that one, gets
        the completion time as its last run. */
    method NoteRun(scope: Scope, completedAt: int)
      requires Valid()
      modifies this
      ensures Valid()
      ensures Schedules(scope) == Completed(old(Schedules(scope)), completedAt)
      ensures forall s :: s != scope ==> Schedules(s) == old(Schedules(s))
    {
      var s := FindScheduleForConnector(scope);
      if s.Some? {
        var l := Schedules(scope);
        assert s.value.Ran(completedAt).Refreshed() == s.value.Ran(completedAt);
        assert [s.value.Ran(completedAt)] + l[1..] == l[0 := s.value.Ran(completedAt)];
        var updated := UpdateSchedule(scope, s.value.Ran(completedAt));
      }
    }
  }

  lemma RefreshedId(s: Schedule)
    ensures s.Refreshed().id == s.id
  {
  }

  lemma {:induction false} FindReplace(l: seq<Schedule>, id: string, s: Schedule)
    requires Find(l, id).Some? && s.id == Find(l, id).value.id
    ensures Replace(l, s).Some? && s.id == id
  {
    if l[0].id != id {
      FindReplace(l[1..], id, s);
    }
  }

  /** The schedules of a connector after a successful sync. */
  function Completed(l: seq<Schedule>, at: int): seq<Schedule> {
    if l == [] then l else l[0 := l[0].Ran(at)]
  }

  // ------------------------------------------------------------------
  // Polling

  /** One poll: when, and, if the sync was run, whether it succeeded and when it was over. */
  datatype Poll = Poll(at: int, ran: bool, succeeded: bool, done: int)

  /** The states of a connector's only schedule over a run of polls under a clock that does not
      run backwards. */
  ghost predicate Polled(states: seq<Schedule>, polls: seq<Poll>) {
    && |states| == |polls| + 1
    && states[0].Cached() && states[0].enabled && states[0].kind == Interval
    && states[0].intervalMinutes.Some? && states[0].intervalMinutes.value >= 1
    && (forall i :: 0 <= i < |polls| ==> polls[i].at <= polls[i].done)
    && (forall i :: 0 <= i < |polls| - 1 ==> polls[i].done <= polls[i + 1].at)
    && (forall i :: 0 <= i < |polls| ==>
          && polls[i].ran == states[i].IsDue(polls[i].at)
          && states[i + 1] == if polls[i].ran && polls[i].succeeded then Completed([states[i]], polls[i].done)[0] else states[i])
  }

  /** What polling keeps of the schedule. */
  lemma {:induction false} PolledState(states: seq<Schedule>, polls: seq<Poll>, i: nat)
    requires Polled(states, polls) && i < |states|
    ensures states[i].Cached() && states[i].enabled && states[i].kind == Interval
    ensures states[i].intervalMinutes == states[0].intervalMinutes && states[i].createdAt == states[0].createdAt
  {
    if i > 0 {
      PolledState(states, polls, i - 1);
    }
  }

  /** Once a sync has succeeded, the last run recorded later is never earlier. */
  lemma {:induction false} LastRunKept(states: seq<Schedule>, polls: seq<Poll>, i: nat, j: nat)
    requires Polled(states, polls) && i < j < |states|
    requires polls[i].ran && polls[i].succeeded
    ensures states[j].lastRunAt.Some? && states[j].lastRunAt.value >= polls[i].done
    ensures j < |polls| ==> polls[i].done <= polls[j].at
  {
    if j > i + 1 {
      LastRunKept(states, polls, i, j - 1);
    }
  }

  /** Spacing: a scheduled run starts at least one interval after any earlier successful run was
      completed. */
  lemma RunsAreSpaced(states: seq<Schedule>, polls: seq<Poll>, i: nat, j: nat)
    requires Polled(states, polls) && i < j < |polls|
    requires polls[i].ran && polls[i].succeeded && polls[j].ran
    ensures polls[j].at >= polls[i].done + 60 * states[0].intervalMinutes.value
  {
    PolledState(states, polls, j);
    LastRunKept(states, polls, i, j);
  }

  /** A run that fails is tried again at the very next poll. */
  lemma FailedRunIsRetried(states: seq<Schedule>, polls: seq<Poll>, i: nat)
    requires Polled(states, polls) && i + 1 < |polls|
    requires polls[i].ran && !polls[i].succeeded
    ensures polls[i + 1].ran
  {
  }

  /** With several schedules for a connector, a due one is put off by a successful sync if and
      only if it is the first in the file; any other stays due, at this poll and every later one. */
  lemma OnlyFirstIsPutOffIff(l: seq<Schedule>, k: nat, now: int, done: int, later: int)
    requires k < |l| && AllCached(l) && l[k].kind in {Interval, Cron} && l[k].IsDue(now)
    requires now <= done <= later < done + 60 * l[k].intervalMinutes.value
    ensures Completed(l, done)[k].IsDue(later) <==> k > 0
  {
    assert l[k].Cached();
  }

  /** However many syncs succeed, a schedule that is not the first never changes. */
  lemma {:induction false} OthersNeverAdvance(lists: seq<seq<Schedule>>, times: seq<int>, k: nat, n: nat)
    requires |lists| == |times| + 1 && n < |lists|
    requires forall i :: 0 <= i < |times| ==> lists[i + 1] == Completed(lists[i], times[i])
    requires 0 < k < |lists[0]|
    ensures |lists[n]| == |lists[0]| && lists[n][k] == lists[0][k]
  {
    if n > 0 {
      OthersNeverAdvance(lists, times, k, n - 1);
    }
  }

  /** Two hourly schedules of one connector, both due: after a sync the first is put off, and the
      second is due again a second later. */
  lemma SecondScheduleExample() returns (l: seq<Schedule>)
    ensures |l| == 2 && AllCached(l) && l[0].IsDue(3600) && l[1].IsDue(3600)
    ensures |Completed(l, 3600)| == 2 && !Completed(l, 3600)[0].IsDue(3601) && Completed(l, 3600)[1].IsDue(3601)
  {
    var s := Schedule("a", true, Interval, Some(60), Some(3600), None, 0);
    l := [s, Schedule("b", true, Interval, Some(60), Some(3600), None, 0)];
  }
}
