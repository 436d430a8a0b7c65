/** The earlier app's store: goals and their actions, the per-date daily
    focus and daily logs, and the statistics read from them. `now` is the
    clock; "today" is the calendar day of `now`. */
module LegacyStorage {
  import opened Wrappers
  import opened Dates
  import opened Seqs
  import opened Percent
  import opened LegacyModels

  datatype Store = Store(goals: seq<Goal>, actions: seq<Action>, focus: seq<DailyFocus>, logs: seq<DailyLog>)

  /** `deleteGoal(id)`: the goal and every action of it go; everything else
      stays, in order. */
  function DeleteGoal(s: Store, id: string): (r: Store)
    ensures forall i :: 0 <= i < |r.goals| ==> r.goals[i].id != id
    ensures forall i :: 0 <= i < |r.actions| ==> r.actions[i].goalId != id
    ensures r.focus == s.focus && r.logs == s.logs
  {
    s.(goals := Filter(s.goals, (g: Goal) => g.id != id),
       actions := Filter(s.actions, (a: Action) => a.goalId != id))
  }

  /** Exactly the other goals and the other goals' actions survive. */
  lemma DeleteGoalKeepsOthers(s: Store, id: string, g: Goal, a: Action)
    ensures g in DeleteGoal(s, id).goals <==> g in s.goals && g.id != id
    ensures a in DeleteGoal(s, id).actions <==> a in s.actions && a.goalId != id
  {
    var r := DeleteGoal(s, id);
    if g in s.goals && g.id != id {
      var i :| 0 <= i < |s.goals| && s.goals[i] == g;
      FilterKeeps(s.goals, (x: Goal) => x.id != id, i);
    }
    if g in r.goals {
      var j :| 0 <= j < |r.goals| && r.goals[j] == g;
      FilterFrom(s.goals, (x: Goal) => x.id != id, j);
    }
    if a in s.actions && a.goalId != id {
      var i :| 0 <= i < |s.actions| && s.actions[i] == a;
      FilterKeeps(s.actions, (x: Action) => x.goalId != id, i);
    }
    if a in r.actions {
      var j :| 0 <= j < |r.actions| && r.actions[j] == a;
      FilterFrom(s.actions, (x: Action) => x.goalId != id, j);
    }
  }

  // -------------------------------------------------------------- daily focus

  function FocusIndex(focus: seq<DailyFocus>, date: Date): int
  {
    FirstIndex(focus, (f: DailyFocus) => f.date == date)
  }

  /** `getDailyFocus(date)`: the stored focus of the date, or an empty one
      (which is not stored). */
  function GetDailyFocus(focus: seq<DailyFocus>, date: Date): (f: DailyFocus)
    ensures f.date == date
    ensures (forall i :: 0 <= i < |focus| ==> focus[i].date != date) ==> f.goalIds == []
    ensures (exists i :: 0 <= i < |focus| && focus[i].date == date) ==> f in focus
  {
    var k := FocusIndex(focus, date);
    if k == -1 then DailyFocus(date, []) else focus[k]
  }

  /** At most one record per date. */
  predicate UniqueFocusDates(focus: seq<DailyFocus>)
  {
    forall i, j :: 0 <= i < j < |focus| ==> focus[i].date != focus[j].date
  }

  /** `saveDailyFocus(f)`: replaces the record of the same date, or appends. */
  function SaveDailyFocus(focus: seq<DailyFocus>, f: DailyFocus): (r: seq<DailyFocus>)
    ensures f in r
    ensures forall i :: 0 <= i < |focus| && focus[i].date != f.date ==> focus[i] in r
    ensures forall i :: 0 <= i < |r| ==> r[i] == f || r[i] in focus
  {
    var k := FocusIndex(focus, f.date);
    if k == -1 then
      assert (focus + [f])[|focus|] == f;
      focus + [f]
    else
      var r := focus[k := f];
      assert r[k] == f;
      assert forall i :: 0 <= i < |focus| && i != k ==> r[i] == focus[i];
      r
  }

  /** Saving keeps one record per date, and reading the date back gives the
      saved focus. */
  lemma SaveDailyFocusUpsert(focus: seq<DailyFocus>, f: DailyFocus)
    requires UniqueFocusDates(focus)
    ensures UniqueFocusDates(SaveDailyFocus(focus, f))
    ensures GetDailyFocus(SaveDailyFocus(focus, f), f.date) == f
  {
    var r := SaveDailyFocus(focus, f);
    var k := FocusIndex(focus, f.date);
    if k == -1 {
      assert forall i :: 0 <= i < |focus| ==> r[i] == focus[i];
      assert FocusIndex(r, f.date) == |focus|;
    } else {
      assert forall i :: 0 <= i < |focus| && i != k ==> r[i] == focus[i];
      assert FocusIndex(r, f.date) == k;
    }
  }

  // --------------------------------------------------------------- daily logs

  function LogIndex(logs: seq<DailyLog>, date: Date): int
  {
    FirstIndex(logs, (l: DailyLog) => l.date == date)
  }

  /** `getDailyLog(date)`: the stored log of the date, or a new empty one
      stamped `now` (not stored). */
  function GetDailyLog(logs: seq<DailyLog>, date: Date, now: Instant): (l: DailyLog)
    ensures l.date == date
    ensures LogIndex(logs, date) == -1 ==> l.completedActionIds == []
    ensures LogIndex(logs, date) >= 0 ==> l == logs[LogIndex(logs, date)]
  {
    var k := LogIndex(logs, date);
    if k == -1 then DailyLog(date, "", [], now) else logs[k]
  }

  /** Logs older than 90 days are dropped: a log is kept when its date's
      midnight is no earlier than 90 days before `now` (a date that does not
      exist never compares, and is dropped). */
  predicate Recent(l: DailyLog, now: Instant)
    requires ValidInstant(now)
  {
    Valid(l.date) && DayNumber(l.date) * DayMs >= Time(now) - 90 * DayMs
  }

  /** The upsert step of `saveDailyLog`. */
  function UpsertLog(logs: seq<DailyLog>, log: DailyLog): (r: seq<DailyLog>)
    ensures log in r
    ensures forall i :: 0 <= i < |logs| && logs[i].date != log.date ==> logs[i] in r
    ensures forall i :: 0 <= i < |r| ==> r[i] == log || r[i] in logs
  {
    var k := LogIndex(logs, log.date);
    if k == -1 then
      assert (logs + [log])[|logs|] == log;
      logs + [log]
    else
      var r := logs[k := log];
      assert r[k] == log;
      assert forall i :: 0 <= i < |logs| && i != k ==> r[i] == logs[i];
      r
  }

  /** `saveDailyLog(log)`: upsert by date, then keep only the last 90 days. */
  function SaveDailyLog(logs: seq<DailyLog>, log: DailyLog, now: Instant): (r: seq<DailyLog>)
    requires ValidInstant(now)
    ensures forall i :: 0 <= i < |r| ==> Recent(r[i], now)
  {
    Filter(UpsertLog(logs, log), (l: DailyLog) => Recent(l, now))
  }

  predicate UniqueLogDates(logs: seq<DailyLog>)
  {
    forall i, j :: 0 <= i < j < |logs| ==> logs[i].date != logs[j].date
  }

  /** Saving keeps one log per date; a recent saved log can be read back and
      every other recent log survives. */
  lemma SaveDailyLogUpsert(logs: seq<DailyLog>, log: DailyLog, now: Instant)
    requires ValidInstant(now) && UniqueLogDates(logs)
    ensures UniqueLogDates(SaveDailyLog(logs, log, now))
    ensures Recent(log, now) ==> log in SaveDailyLog(logs, log, now)
    ensures forall i :: 0 <= i < |logs| && logs[i].date != log.date && Recent(logs[i], now) ==>
      logs[i] in SaveDailyLog(logs, log, now)
  {
    var u := UpsertLog(logs, log);
    var p := (l: DailyLog) => Recent(l, now);
    assert UniqueLogDates(u) by {
      var k := LogIndex(logs, log.date);
      if k >= 0 {
        assert forall i :: 0 <= i < |logs| && i != k ==> u[i] == logs[i];
      } else {
        assert forall i :: 0 <= i < |logs| ==> u[i] == logs[i];
      }
    }
    FilterKeepsUniqueDates(u, p);
    if Recent(log, now) {
      var i :| 0 <= i < |u| && u[i] == log;
      FilterKeeps(u, p, i);
    }
    forall i | 0 <= i < |logs| && logs[i].date != log.date && Recent(logs[i], now)
      ensures logs[i] in SaveDailyLog(logs, log, now)
    {
      var j :| 0 <= j < |u| && u[j] == logs[i];
      FilterKeeps(u, p, j);
    }
  }

  lemma {:induction false} FilterKeepsUniqueDates(logs: seq<DailyLog>, p: DailyLog -> bool)
    requires UniqueLogDates(logs)
    ensures UniqueLogDates(Filter(logs, p))
  {
    if |logs| > 0 {
      FilterKeepsUniqueDates(logs[1..], p);
      var rest := Filter(logs[1..], p);
      if p(logs[0]) {
        var r := [logs[0]] + rest;
        forall i, j | 0 <= i < j < |r| ensures r[i].date != r[j].date {
          if i == 0 {
            FilterFrom(logs[1..], p, j - 1);
          }
        }
      }
    }
  }

  /** `addCompletedActionToLog(id)`: today's log (stored or new) gains the id
      and is saved, unless it already lists it. The id is pushed onto the log
      as read, so its update time is not stamped. */
  function AddCompletedActionToLog(logs: seq<DailyLog>, actionId: string, now: Instant): (r: seq<DailyLog>)
    requires ValidInstant(now)
    ensures var log := GetDailyLog(logs, now.date, now);
      && (actionId in log.completedActionIds ==> r == logs)
      && (actionId !in log.completedActionIds ==>
            && log.(completedActionIds := log.completedActionIds + [actionId]) in r
            && forall i :: 0 <= i < |r| ==> Recent(r[i], now))
  {
    var log := GetDailyLog(logs, now.date, now);
    if actionId in log.completedActionIds then logs
    else
      var saved := log.(completedActionIds := log.completedActionIds + [actionId]);
      assert Recent(saved, now) by {
        assert DayNumber(now.date) * DayMs <= Time(now);
      }
      var u := UpsertLog(logs, saved);
      var j :| 0 <= j < |u| && u[j] == saved;
      FilterKeeps(u, (l: DailyLog) => Recent(l, now), j);
      SaveDailyLog(logs, saved, now)
  }

  /** Afterwards today's log lists the id exactly once, provided today's log
      listed no id twice. */
  lemma AddCompletedActionToLogOnce(logs: seq<DailyLog>, actionId: string, now: Instant)
    requires ValidInstant(now) && UniqueLogDates(logs)
    requires Distinct(GetDailyLog(logs, now.date, now).completedActionIds)
    ensures var today := GetDailyLog(AddCompletedActionToLog(logs, actionId, now), now.date, now);
      && actionId in today.completedActionIds
      && Distinct(today.completedActionIds)
  {
    var log := GetDailyLog(logs, now.date, now);
    if actionId !in log.completedActionIds {
      var saved := log.(completedActionIds := log.completedActionIds + [actionId]);
      var r := AddCompletedActionToLog(logs, actionId, now);
      assert Recent(saved, now) by {
        assert DayNumber(now.date) * DayMs <= Time(now);
        assert Time(now) < DayNumber(now.date) * DayMs + DayMs;
      }
      SaveDailyLogUpsert(logs, saved, now);
      GetDailyLogOfStored(r, saved, now);
    }
  }

  /** With one log per date, reading a stored log's date gives that log. */
  lemma GetDailyLogOfStored(logs: seq<DailyLog>, l: DailyLog, now: Instant)
    requires UniqueLogDates(logs) && l in logs
    ensures GetDailyLog(logs, l.date, now) == l
  {
    var j :| 0 <= j < |logs| && logs[j] == l;
    var k := LogIndex(logs, l.date);
    assert k >= 0;
    assert k == j;
  }

  // ------------------------------------------------------------------ actions

  function ActionIndex(actions: seq<Action>, id: string): int
  {
    FirstIndex(actions, (a: Action) => a.id == id)
  }

  /** `updateAction(id, data)` on the store. Unknown ids change nothing and
      answer false. The given fields are written over the first action with
      the id. Then, if the update says Completed and the action has no
      completion time, it is stamped `now` and the id goes into today's log;
      if the update does not say Completed (including an update with no
      status at all), the completion time is cleared. */
  function StoreUpdateAction(s: Store, id: string, data: ActionChanges, now: Instant): (r: (Store, bool))
    requires ValidInstant(now)
    ensures var k := ActionIndex(s.actions, id);
      && (k == -1 <==> !r.1)
      && (k == -1 ==> r.0 == s)
      && |r.0.actions| == |s.actions| && r.0.goals == s.goals && r.0.focus == s.focus
      && (k >= 0 ==> forall i :: 0 <= i < |s.actions| && i != k ==> r.0.actions[i] == s.actions[i])
      && (k >= 0 ==>
            var a := s.actions[k];
            var b := r.0.actions[k];
            && b.id == a.id && b.goalId == a.goalId
            && b.title == data.title.GetOr(a.title) && b.how == data.how.GetOr(a.how)
            && b.status == data.status.GetOr(a.status)
            && (data.status != Some(Completed) ==> b.completedAt.None? && r.0.logs == s.logs)
            && (data.status == Some(Completed) && a.completedAt.Some? ==> b.completedAt == a.completedAt && r.0.logs == s.logs)
            && (data.status == Some(Completed) && a.completedAt.None? ==>
                  b.completedAt == Some(now) && r.0.logs == AddCompletedActionToLog(s.logs, id, now)))
  {
    var k := ActionIndex(s.actions, id);
    if k == -1 then (s, false)
    else
      var a := s.actions[k];
      var merged := a.(title := data.title.GetOr(a.title), how := data.how.GetOr(a.how),
                         status := data.status.GetOr(a.status));
      if data.status == Some(Completed) && a.completedAt.None? then
        (s.(actions := s.actions[k := merged.(completedAt := Some(now))],
            logs := AddCompletedActionToLog(s.logs, id, now)), true)
      else if data.status != Some(Completed) then
        (s.(actions := s.actions[k := merged.(completedAt := None)]), true)
      else (s.(actions := s.actions[k := merged]), true)
  }

  /** The store's update and `Action.update` differ only on an update without
      a status: the store clears the completion time, the record method keeps
      it. */
  lemma StoreUpdateDiffersWithoutStatus(s: Store, id: string, data: ActionChanges, now: Instant)
    requires ValidInstant(now) && ActionIndex(s.actions, id) >= 0
    ensures var k := ActionIndex(s.actions, id);
      var b := StoreUpdateAction(s, id, data, now).0.actions[k];
      && (data.status.Some? ==> b == UpdateAction(s.actions[k], data, now))
      && (data.status.None? ==> b == UpdateAction(s.actions[k], data, now).(completedAt := None))
  {
  }

  /** `toggleActionComplete(id)`: Completed becomes In Progress, any other
      status becomes Completed, through `updateAction`; false for an unknown
      id. */
  function ToggleActionComplete(s: Store, id: string, now: Instant): (r: (Store, bool))
    requires ValidInstant(now)
    ensures !r.1 <==> ActionIndex(s.actions, id) == -1
    ensures |r.0.actions| == |s.actions|
    ensures r.1 ==>
      var k := ActionIndex(s.actions, id);
      r.0.actions[k].status == (if s.actions[k].status == Completed then InProgress else Completed)
  {
    var k := ActionIndex(s.actions, id);
    if k == -1 then (s, false)
    else
      var newStatus := if s.actions[k].status == Completed then InProgress else Completed;
      StoreUpdateAction(s, id, ActionChanges(None, None, Some(newStatus)), now)
  }

  /** Toggling keeps a coherent action coherent: completed actions carry a
      completion time, others none. */
  lemma ToggleKeepsCoherent(s: Store, id: string, now: Instant)
    requires ValidInstant(now) && ActionIndex(s.actions, id) >= 0
    requires Coherent(s.actions[ActionIndex(s.actions, id)])
    ensures Coherent(ToggleActionComplete(s, id, now).0.actions[ActionIndex(s.actions, id)])
  {
  }

  // --------------------------------------------------------------- statistics

  datatype GoalStats = GoalStats(total: nat, completed: nat, inProgress: nat, notStarted: nat, completionRate: nat)

  /** `getActionsByGoalId(goalId)` */
  function GoalActions(actions: seq<Action>, goalId: string): (r: seq<Action>)
    ensures forall i :: 0 <= i < |r| ==> r[i].goalId == goalId
  {
    Filter(actions, (a: Action) => a.goalId == goalId)
  }

  predicate IsCompleted(a: Action) { a.status == Completed }
  predicate IsInProgress(a: Action) { a.status == InProgress }
  predicate IsNotStarted(a: Action) { a.status == NotStarted }

  /** `getGoalStats(goalId)`: counts of the goal's actions by status and the
      rounded completion rate (0 without actions). */
  function GetGoalStats(actions: seq<Action>, goalId: string): (st: GoalStats)
    ensures st.completed <= st.total && st.inProgress <= st.total && st.notStarted <= st.total
    ensures st.total == |GoalActions(actions, goalId)|
    ensures st.completionRate <= 100 && (st.total == 0 ==> st.completionRate == 0)
    ensures var mine := GoalActions(actions, goalId);
      && st.completed == Count(mine, IsCompleted)
      && st.inProgress == Count(mine, IsInProgress)
      && st.notStarted == Count(mine, IsNotStarted)
      && st.completionRate == RoundPercent(st.completed, st.total)
  {
    var mine := GoalActions(actions, goalId);
    var completed := Count(mine, IsCompleted);
    RoundPercentAtMost100(completed, |mine|);
    GoalStats(|mine|, completed, Count(mine, IsInProgress), Count(mine, IsNotStarted),
              RoundPercent(completed, |mine|))
  }

  /** Every action has exactly one of the three statuses, so the counts add
      up to the length. */
  lemma {:induction false} StatusCountsPartition(s: seq<Action>)
    ensures Count(s, IsCompleted) + Count(s, IsInProgress) + Count(s, IsNotStarted) == |s|
  {
    if |s| > 0 {
      StatusCountsPartition(s[1..]);
    }
  }

  /** The three status counts of a goal add up to its total, and the rate is
      100 exactly when every action of a goal with fewer than 200 actions is
      completed. */
  lemma GoalStatsPartition(actions: seq<Action>, goalId: string)
    ensures var st := GetGoalStats(actions, goalId);
      && st.completed + st.inProgress + st.notStarted == st.total
      && (0 < st.total < 200 ==> (st.completionRate == 100 <==> All(GoalActions(actions, goalId), IsCompleted)))
  {
    var mine := GoalActions(actions, goalId);
    StatusCountsPartition(mine);
    FilterFull(mine, IsCompleted);
    FilterSubset(mine, IsCompleted);
    if 0 < |mine| < 200 {
      RoundPercentFullSmall(Count(mine, IsCompleted), |mine|);
    }
  }

  datatype DayCount = DayCount(date: Date, count: nat)

  /** The number of actions the log of `date` lists; 0 without a log. */
  function CountOn(logs: seq<DailyLog>, date: Date): nat
  {
    var k := LogIndex(logs, date);
    if k == -1 then 0 else |logs[k].completedActionIds|
  }

  /** `getWeeklyProgress()`: the last seven days, oldest first, each with the
      number of actions its log lists. */
  function GetWeeklyProgress(logs: seq<DailyLog>, today: Date): (w: seq<DayCount>)
    requires Valid(today)
    ensures |w| == 7 && w[6].date == today
    ensures forall i :: 0 <= i < 7 ==> w[i].date == Last7Days(today)[i]
    ensures forall i :: 0 <= i < 7 ==> (w[i].count == 0 <== forall j :: 0 <= j < |logs| ==> logs[j].date != w[i].date)
  {
    var days := Last7Days(today);
    seq(7, i requires 0 <= i < 7 => DayCount(days[i], CountOn(logs, days[i])))
  }

  /** With one log per date, each day's count is the length of that day's log. */
  lemma WeeklyProgressCounts(logs: seq<DailyLog>, today: Date, i: int, j: int)
    requires Valid(today) && UniqueLogDates(logs)
    requires 0 <= i < 7 && 0 <= j < |logs| && logs[j].date == Last7Days(today)[i]
    ensures GetWeeklyProgress(logs, today)[i].count == |logs[j].completedActionIds|
  {
    var k := LogIndex(logs, logs[j].date);
    assert k >= 0 && logs[k].date == logs[j].date;
    assert k == j;
  }
}
