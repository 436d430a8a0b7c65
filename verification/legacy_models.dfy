/** The records of the earlier single-page app: goals, actions with a
    completion time, the daily focus (at most three goals) and the daily log
    of completed actions. */
module LegacyModels {
  import opened Wrappers
  import opened Dates
  import opened Seqs

  datatype Status = NotStarted | InProgress | Completed

  datatype Goal = Goal(id: string, title: string, category: string, status: Status, updatedAt: Instant)

  /** The fields an update may carry; `None` is an absent (`undefined`) field. */
  datatype GoalChanges = GoalChanges(title: Option<string>, category: Option<string>, status: Option<Status>)

  /** `Goal.update(data)`: each given field is written, the others kept; the
      update time is always stamped. */
  function UpdateGoal(g: Goal, data: GoalChanges, now: Instant): (r: Goal)
    ensures r.id == g.id && r.updatedAt == now
    ensures r.title == data.title.GetOr(g.title)
    ensures r.category == data.category.GetOr(g.category)
    ensures r.status == data.status.GetOr(g.status)
  {
    g.(title := if data.title.Some? then data.title.value else g.title,
       category := if data.category.Some? then data.category.value else g.category,
       status := if data.status.Some? then data.status.value else g.status,
       updatedAt := now)
  }

  /** An update that gives no field only stamps the update time, and
      applying the same changes twice is applying them once. */
  lemma UpdateGoalPartial(g: Goal, data: GoalChanges, now: Instant, later: Instant)
    ensures UpdateGoal(g, GoalChanges(None, None, None), now) == g.(updatedAt := now)
    ensures UpdateGoal(UpdateGoal(g, data, now), data, later) == UpdateGoal(g, data, later)
  {
  }

  /** When every field is given, the result does not depend on the goal's old
      title, category or status. */
  lemma UpdateGoalOverwrites(g: Goal, h: Goal, title: string, category: string, status: Status, now: Instant)
    requires g.id == h.id
    ensures var data := GoalChanges(Some(title), Some(category), Some(status));
      UpdateGoal(g, data, now) == UpdateGoal(h, data, now)
  {
  }

  /** An action towards a goal; `how` is the real-life example. */
  datatype Action = Action(id: string, goalId: string, title: string, how: string, status: Status, completedAt: Option<Instant>)

  datatype ActionChanges = ActionChanges(title: Option<string>, how: Option<string>, status: Option<Status>)

  /** A completion time is recorded exactly for completed actions. */
  predicate Coherent(a: Action)
  {
    a.completedAt.Some? <==> a.status == Completed
  }

  /** `Action.update(data)`. A given status is written: Completed keeps an
      existing completion time or stamps `now`; any other status clears it.
      Without a status the status and the time are left alone. */
  function UpdateAction(a: Action, data: ActionChanges, now: Instant): (r: Action)
    ensures r.id == a.id && r.goalId == a.goalId
    ensures r.title == data.title.GetOr(a.title) && r.how == data.how.GetOr(a.how)
    ensures data.status.None? ==> r.status == a.status && r.completedAt == a.completedAt
    ensures data.status == Some(Completed) ==>
      r.status == Completed && r.completedAt == (if a.completedAt.Some? then a.completedAt else Some(now))
    ensures data.status.Some? && data.status != Some(Completed) ==>
      r.status == data.status.value && r.completedAt.None?
  {
    var b := a.(title := if data.title.Some? then data.title.value else a.title,
                how := if data.how.Some? then data.how.value else a.how);
    match data.status
    case None => b
    case Some(s) =>
      if s == Completed && a.completedAt.None? then b.(status := s, completedAt := Some(now))
      else if s != Completed then b.(status := s, completedAt := None)
      else b.(status := s)
  }

  /** `markCompleted()` */
  function MarkCompleted(a: Action, now: Instant): (r: Action)
    ensures r.status == Completed && r.completedAt == Some(now)
    ensures r.(status := a.status, completedAt := a.completedAt) == a
  {
    a.(status := Completed, completedAt := Some(now))
  }

  /** `markIncomplete()` */
  function MarkIncomplete(a: Action): (r: Action)
    ensures r.status == InProgress && r.completedAt.None?
    ensures r.(status := a.status, completedAt := a.completedAt) == a
  {
    a.(status := InProgress, completedAt := None)
  }

  /** Every way of changing an action's status keeps the completion time in
      step with it. */
  lemma ActionChangesKeepCoherent(a: Action, data: ActionChanges, now: Instant)
    requires Coherent(a)
    ensures Coherent(UpdateAction(a, data, now))
    ensures Coherent(MarkCompleted(a, now)) && Coherent(MarkIncomplete(a))
  {
  }

  /** Re-completing a completed action keeps its original completion time. */
  lemma CompletingTwiceKeepsFirstTime(a: Action, data: ActionChanges, now: Instant, later: Instant)
    requires data.status == Some(Completed)
    ensures UpdateAction(UpdateAction(a, data, now), data, later).completedAt == UpdateAction(a, data, now).completedAt
  {
  }

  /** The goals chosen for one day. */
  datatype DailyFocus = DailyFocus(date: Date, goalIds: seq<string>)

  const MaxFocusGoals: nat := 3

  /** `DailyFocus.setGoals(ids)`: more than three ids throw; otherwise the
      list is replaced as given. */
  function SetGoals(f: DailyFocus, ids: seq<string>): (r: Result<DailyFocus, string>)
    ensures r.Failure? <==> |ids| > MaxFocusGoals
    ensures r.Success? ==> r.value == f.(goalIds := ids)
  {
    if |ids| > MaxFocusGoals then Failure("Daily focus can only have up to 3 goals")
    else Success(f.(goalIds := ids))
  }

  /** `DailyFocus.addGoal(id)`: a full focus throws (even for an id already
      in it); otherwise the id is appended unless already present. */
  function AddGoal(f: DailyFocus, id: string): (r: Result<DailyFocus, string>)
    ensures r.Failure? <==> |f.goalIds| >= MaxFocusGoals
    ensures r.Success? ==>
      && r.value.date == f.date
      && id in r.value.goalIds
      && (id in f.goalIds ==> r.value == f)
      && (id !in f.goalIds ==> r.value.goalIds == f.goalIds + [id])
  {
    if |f.goalIds| >= MaxFocusGoals then Failure("Daily focus already has 3 goals")
    else if id in f.goalIds then Success(f)
    else Success(f.(goalIds := f.goalIds + [id]))
  }

  /** `DailyFocus.removeGoal(id)`: every occurrence of the id goes, the other
      ids stay in order. */
  function RemoveGoal(f: DailyFocus, id: string): (r: DailyFocus)
    ensures r.date == f.date && !HasGoal(r, id)
  {
    f.(goalIds := Without(f.goalIds, id))
  }

  /** `ids.filter(x => x !== id)` */
  function Without(ids: seq<string>, id: string): (r: seq<string>)
    ensures forall i :: 0 <= i < |r| ==> r[i] != id
  {
    Filter(ids, (x: string) => x != id)
  }

  /** `DailyFocus.hasGoal(id)` */
  predicate HasGoal(f: DailyFocus, id: string)
  {
    id in f.goalIds
  }

  /** Removing an id keeps exactly the other ids. */
  lemma RemoveGoalKeepsOthers(f: DailyFocus, id: string, x: string)
    requires x != id
    ensures HasGoal(RemoveGoal(f, id), x) <==> HasGoal(f, x)
  {
    if x in f.goalIds {
      var i :| 0 <= i < |f.goalIds| && f.goalIds[i] == x;
      FilterKeeps(f.goalIds, (y: string) => y != id, i);
    }
    var r := RemoveGoal(f, id).goalIds;
    if x in r {
      var j :| 0 <= j < |r| && r[j] == x;
      FilterFrom(f.goalIds, (y: string) => y != id, j);
    }
  }

  /** At most three goals, none twice. */
  predicate FocusValid(f: DailyFocus)
  {
    |f.goalIds| <= MaxFocusGoals && Distinct(f.goalIds)
  }

  /** Adding and removing goals keep a valid focus valid; `setGoals` keeps the
      cap but not distinctness. */
  lemma FocusOperationsKeepValid(f: DailyFocus, id: string, ids: seq<string>)
    requires FocusValid(f)
    ensures AddGoal(f, id).Success? ==> FocusValid(AddGoal(f, id).value)
    ensures FocusValid(RemoveGoal(f, id))
    ensures SetGoals(f, ids).Success? ==> |SetGoals(f, ids).value.goalIds| <= MaxFocusGoals
  {
    RemoveKeepsDistinct(f.goalIds, id);
  }

  lemma {:induction false} RemoveKeepsDistinct(s: seq<string>, id: string)
    requires Distinct(s)
    ensures Distinct(Without(s, id))
  {
    if |s| > 0 {
      RemoveKeepsDistinct(s[1..], id);
      var rest := Without(s[1..], id);
      FilterSubset(s[1..], (x: string) => x != id);
      if s[0] != id {
        var r := [s[0]] + rest;
        forall i, j | 0 <= i < j < |r| ensures r[i] != r[j] {
          if i == 0 {
            assert r[j] == rest[j - 1];
            assert rest[j - 1] in multiset(rest);
            assert rest[j - 1] in multiset(s[1..]);
            assert s[0] !in s[1..];
          }
        }
      }
    }
  }

  /** The actions completed on one day. */
  datatype DailyLog = DailyLog(date: Date, notes: string, completedActionIds: seq<string>, updatedAt: Instant)

  /** `DailyLog.addCompletedAction(id)`: appends the id unless present,
      stamping the update time only then. */
  function AddCompletedAction(log: DailyLog, actionId: string, now: Instant): (r: DailyLog)
    ensures actionId in r.completedActionIds
    ensures actionId in log.completedActionIds ==> r == log
    ensures actionId !in log.completedActionIds ==>
      r == log.(completedActionIds := log.completedActionIds + [actionId], updatedAt := now)
  {
    if actionId in log.completedActionIds then log
    else log.(completedActionIds := log.completedActionIds + [actionId], updatedAt := now)
  }

  /** Adding the same action twice is adding it once. */
  lemma AddCompletedActionIdempotent(log: DailyLog, actionId: string, now: Instant, later: Instant)
    ensures AddCompletedAction(AddCompletedAction(log, actionId, now), actionId, later) == AddCompletedAction(log, actionId, now)
  {
  }

  /** No id occurs twice. */
  predicate Distinct(ids: seq<string>)
  {
    forall i, j :: 0 <= i < j < |ids| ==> ids[i] != ids[j]
  }

  /** Adding an action never duplicates an id. */
  lemma AddCompletedActionDistinct(log: DailyLog, actionId: string, now: Instant)
    requires Distinct(log.completedActionIds)
    ensures Distinct(AddCompletedAction(log, actionId, now).completedActionIds)
  {
  }
}
