/** Side projects: the daily commit streak, the status workflow with its
    deployment checklist and publish gate, checklist toggling and the status
    filter. The local store (`lib/storage.ts`) and the projects page write
    these records under different rules; each is modelled as written. */
module Projects {
  import opened Wrappers
  import opened Dates
  import opened Seqs

  datatype ProjectStatus = Idea | InProgress | DeploymentReady | Published | Archived

  datatype ProjectType = SaaS | Automation | DevOpsLab | Extension | VibeCode | Portfolio | Other

  /** A checklist line; `caption` is the source's `label` (a reserved word here). */
  datatype ChecklistItem = ChecklistItem(id: string, caption: string, completed: bool)

  /** A project. The free-text fields (description, urls, monetisation plan)
      and `createdAt` are carried unchanged by every operation here and are
      left out. */
  datatype Project = Project(
    id: string,
    name: string,
    projectType: ProjectType,
    status: ProjectStatus,
    commitStreak: int,
    lastCommitDate: Option<Date>,
    checklist: Option<seq<ChecklistItem>>,
    updatedAt: Instant)

  /** `projects.findIndex(p => p.id === projectId)` */
  function ProjectIndex(projects: seq<Project>, projectId: string): int
  {
    FirstIndex(projects, (p: Project) => p.id == projectId)
  }

  /** `checklist.findIndex(i => i.id === itemId)` */
  function ItemIndex(checklist: seq<ChecklistItem>, itemId: string): int
  {
    FirstIndex(checklist, (item: ChecklistItem) => item.id == itemId)
  }

  // ------------------------------------------------------------ local store

  /** `logProjectCommit(projectId)` with the clock's `today`, `yesterday` and
      `now`. An unknown id, or a commit already logged today, changes nothing.
      Otherwise the streak grows by one when the last commit was yesterday and
      restarts at 1 after any other gap, and the commit date becomes today. */
  function LogProjectCommit(projects: seq<Project>, projectId: string, today: Date, yesterday: Date, now: Instant): (r: seq<Project>)
    ensures |r| == |projects|
    ensures var k := ProjectIndex(projects, projectId);
      && (k == -1 || projects[k].lastCommitDate == Some(today) ==> r == projects)
      && (k >= 0 ==> forall i :: 0 <= i < |r| && i != k ==> r[i] == projects[i])
      && (k >= 0 && projects[k].lastCommitDate != Some(today) ==>
            && r[k].lastCommitDate == Some(today)
            && r[k].commitStreak == (if projects[k].lastCommitDate == Some(yesterday) then projects[k].commitStreak + 1 else 1)
            && r[k] == projects[k].(commitStreak := r[k].commitStreak, lastCommitDate := Some(today), updatedAt := now))
  {
    var k := ProjectIndex(projects, projectId);
    if k == -1 then projects
    else
      var p := projects[k];
      if p.lastCommitDate == Some(today) then projects
      else
        var streak := if p.lastCommitDate == Some(yesterday) then p.commitStreak + 1 else 1;
        projects[k := p.(commitStreak := streak, lastCommitDate := Some(today), updatedAt := now)]
  }

  /** Logging twice on the same day is the same as logging once. */
  lemma LogProjectCommitIdempotent(projects: seq<Project>, projectId: string, today: Date, yesterday: Date, now: Instant, later: Instant)
    ensures var once := LogProjectCommit(projects, projectId, today, yesterday, now);
      LogProjectCommit(once, projectId, today, yesterday, later) == once
  {
    var once := LogProjectCommit(projects, projectId, today, yesterday, now);
    var k := ProjectIndex(projects, projectId);
    if k >= 0 {
      assert forall i :: 0 <= i < k ==> once[i] == projects[i];
      assert ProjectIndex(once, projectId) == k;
    }
  }

  /** Logging on each of `n` consecutive days starting from a project without
      a commit yesterday leaves a streak of `n`, last logged on the final day. */
  lemma LogProjectCommitDaily(projects: seq<Project>, projectId: string, start: Date, n: nat, now: Instant)
    requires Valid(start) && n >= 1
    requires ProjectIndex(projects, projectId) >= 0
    requires projects[ProjectIndex(projects, projectId)].lastCommitDate != Some(Prev(start))
    requires projects[ProjectIndex(projects, projectId)].lastCommitDate != Some(start)
    ensures var r := Daily(projects, projectId, start, n, now);
      && |r| == |projects| && ProjectIndex(r, projectId) == ProjectIndex(projects, projectId)
      && r[ProjectIndex(projects, projectId)].commitStreak == n
      && r[ProjectIndex(projects, projectId)].lastCommitDate == Some(DaysLater(start, n - 1))
  {
    var rest := DailyRest(projects, projectId, start, n, now);
    CommitStep(projects, projectId, start, Prev(start), now);
    CommitRunExtends(LogProjectCommit(projects, projectId, start, Prev(start), now), projectId,
                     ProjectIndex(projects, projectId), start, rest, now, 1);
  }

  /** A run of `n` days is the commit on `start` followed by a run over the
      `n - 1` days after it, none of which repeats the day before it. */
  lemma DailyRest(projects: seq<Project>, projectId: string, start: Date, n: nat, now: Instant) returns (rest: seq<Date>)
    requires Valid(start) && n >= 1
    ensures Daily(projects, projectId, start, n, now)
      == CommitRun(LogProjectCommit(projects, projectId, start, Prev(start), now), projectId, start, rest, now)
    ensures |rest| == n - 1 && (|rest| > 0 ==> rest[0] != start)
    ensures forall i :: 0 < i < |rest| ==> rest[i] != rest[i - 1]
    ensures (if n == 1 then start else rest[n - 2]) == DaysLater(start, n - 1)
  {
    var days := Consecutive(start, n);
    ConsecutiveDays(start, n);
    rest := days[1..];
    assert forall i :: 0 < i < |rest| ==> rest[i] == days[i + 1] && rest[i - 1] == days[i];
  }

  /** A streak of `m` last logged on `prev` grows by one for each day of
      `days` when no day repeats the one before it; the project stays at `k`. */
  lemma CommitRunExtends(projects: seq<Project>, projectId: string, k: int, prev: Date, days: seq<Date>, now: Instant, m: int)
    requires k >= 0 && ProjectIndex(projects, projectId) == k
    requires projects[k].commitStreak == m && projects[k].lastCommitDate == Some(prev)
    requires |days| > 0 ==> days[0] != prev
    requires forall i :: 0 < i < |days| ==> days[i] != days[i - 1]
    ensures var r := CommitRun(projects, projectId, prev, days, now);
      && |r| == |projects| && ProjectIndex(r, projectId) == k
      && r[k].commitStreak == m + |days|
      && r[k].lastCommitDate == Some(if |days| == 0 then prev else days[|days| - 1])
  {
    var store, day, rest := projects, prev, days;
    while |rest| > 0
      invariant |rest| <= |days| && rest == days[|days| - |rest|..]
      invariant day == if |rest| == |days| then prev else days[|days| - |rest| - 1]
      invariant |store| == |projects| && ProjectIndex(store, projectId) == k
      invariant store[k].commitStreak == m + (|days| - |rest|) && store[k].lastCommitDate == Some(day)
      invariant CommitRun(store, projectId, day, rest, now) == CommitRun(projects, projectId, prev, days, now)
      decreases |rest|
    {
      assert rest[0] == days[|days| - |rest|];
      CommitStep(store, projectId, rest[0], day, now);
      store, day, rest := LogProjectCommit(store, projectId, rest[0], day, now), rest[0], rest[1..];
    }
  }

  /** One logged commit, as seen from the project's position. */
  lemma CommitStep(projects: seq<Project>, projectId: string, today: Date, yesterday: Date, now: Instant)
    requires ProjectIndex(projects, projectId) >= 0
    requires projects[ProjectIndex(projects, projectId)].lastCommitDate != Some(today)
    ensures var k := ProjectIndex(projects, projectId);
      var r := LogProjectCommit(projects, projectId, today, yesterday, now);
      && |r| == |projects| && ProjectIndex(r, projectId) == k
      && r[k].lastCommitDate == Some(today)
      && r[k].commitStreak == (if projects[k].lastCommitDate == Some(yesterday) then projects[k].commitStreak + 1 else 1)
  {
    var k := ProjectIndex(projects, projectId);
    var r := LogProjectCommit(projects, projectId, today, yesterday, now);
    assert forall i :: 0 <= i < k ==> r[i] == projects[i];
    assert r[k].id == projectId;
  }

  /** The day `n` days after `d`. */
  function DaysLater(d: Date, n: nat): Date
    requires Valid(d)
    decreases n
  {
    if n == 0 then d else DaysLater(Next(d), n - 1)
  }

  /** The `n` days from `start` on, in order. */
  function Consecutive(start: Date, n: nat): (days: seq<Date>)
    requires Valid(start)
    ensures |days| == n
    decreases n
  {
    if n == 0 then [] else [start] + Consecutive(Next(start), n - 1)
  }

  /** The days of `Consecutive(start, n)` start at `start`, end `n - 1` days
      later, and none repeats the one before it. */
  lemma {:induction false} ConsecutiveDays(start: Date, n: nat)
    requires Valid(start) && n >= 1
    ensures var days := Consecutive(start, n);
      && days[0] == start && days[n - 1] == DaysLater(start, n - 1)
      && forall i :: 0 < i < n ==> days[i] != days[i - 1]
    decreases n
  {
    if n > 1 {
      var days := Consecutive(start, n);
      var tail := Consecutive(Next(start), n - 1);
      ConsecutiveDays(Next(start), n - 1);
      DayNumberNext(start);
      assert days == [start] + tail;
      assert forall i :: 0 < i < n ==> days[i] == tail[i - 1];
    }
  }

  /** The store after a commit is logged on each of `n` consecutive days
      beginning at `start`. */
  function Daily(projects: seq<Project>, projectId: string, start: Date, n: nat, now: Instant): seq<Project>
    requires Valid(start)
  {
    CommitRun(projects, projectId, Prev(start), Consecutive(start, n), now)
  }

  /** The store after a commit is logged on each day of `days` in turn, with
      the entry before it (`prev` for the first) as yesterday. */
  function CommitRun(projects: seq<Project>, projectId: string, prev: Date, days: seq<Date>, now: Instant): seq<Project>
    decreases |days|
  {
    if |days| == 0 then projects
    else CommitRun(LogProjectCommit(projects, projectId, days[0], prev, now), projectId, days[0], days[1..], now)
  }

  /** The six items the store installs on entering Deployment Ready. */
  const StoreChecklistLabels: seq<string> :=
    ["Deploy project", "Add to portfolio", "Post on LinkedIn", "Post on X",
     "Write blog breakdown", "Submit to Product Hunt"]

  /** Unchecked items with the given labels; `newId(i)` is the id of item `i`. */
  function Unchecked(labels: seq<string>, newId: nat -> string): (items: seq<ChecklistItem>)
    ensures |items| == |labels|
    ensures forall i :: 0 <= i < |items| ==> items[i].caption == labels[i] && !items[i].completed
  {
    seq(|labels|, i requires 0 <= i < |labels| => ChecklistItem(newId(i), labels[i], false))
  }

  /** Every checklist item is ticked; an absent checklist counts as done. */
  predicate ChecklistDone(checklist: Option<seq<ChecklistItem>>)
  {
    checklist.None? || forall i :: 0 <= i < |checklist.value| ==> checklist.value[i].completed
  }

  /** `updateProjectStatus(projectId, newStatus)`. An unknown id changes
      nothing. Entering Deployment Ready from another status installs a fresh
      six-item checklist; moving to Published is refused while a checklist
      has an unticked item; otherwise only the status and the update time
      change. */
  function UpdateProjectStatus(projects: seq<Project>, projectId: string, newStatus: ProjectStatus, newId: nat -> string, now: Instant): (r: seq<Project>)
    ensures |r| == |projects|
    ensures var k := ProjectIndex(projects, projectId);
      && (k == -1 ==> r == projects)
      && (k >= 0 ==> forall i :: 0 <= i < |r| && i != k ==> r[i] == projects[i])
      && (k >= 0 && newStatus == Published && !ChecklistDone(projects[k].checklist) ==> r == projects)
      && (k >= 0 && (newStatus != Published || ChecklistDone(projects[k].checklist)) ==>
            r[k].status == newStatus && r[k].updatedAt == now)
      && (k >= 0 && newStatus == DeploymentReady && projects[k].status != DeploymentReady ==>
            && r[k].checklist.Some? && |r[k].checklist.value| == 6
            && forall i :: 0 <= i < 6 ==> !r[k].checklist.value[i].completed && r[k].checklist.value[i].caption == StoreChecklistLabels[i])
      && (k >= 0 && !(newStatus == DeploymentReady && projects[k].status != DeploymentReady) ==>
            r[k].checklist == projects[k].checklist)
  {
    var k := ProjectIndex(projects, projectId);
    if k == -1 then projects
    else
      var p := projects[k];
      if newStatus == DeploymentReady && p.status != DeploymentReady then
        projects[k := p.(checklist := Some(Unchecked(StoreChecklistLabels, newId)), status := newStatus, updatedAt := now)]
      else if newStatus == Published && !ChecklistDone(p.checklist) then projects
      else projects[k := p.(status := newStatus, updatedAt := now)]
  }

  /** The publish gate: a project that becomes Published through the store
      had no unticked checklist item. */
  lemma PublishGate(projects: seq<Project>, projectId: string, newId: nat -> string, now: Instant)
    requires ProjectIndex(projects, projectId) >= 0
    ensures var k := ProjectIndex(projects, projectId);
      var r := UpdateProjectStatus(projects, projectId, Published, newId, now);
      projects[k].status != Published && r[k].status == Published ==> ChecklistDone(r[k].checklist)
  {
  }

  /** `toggleProjectChecklistItem`: flips the first item with the id in the
      project's checklist; an unknown project or item, or no checklist,
      changes nothing. */
  function ToggleProjectChecklistItem(projects: seq<Project>, projectId: string, itemId: string): (r: seq<Project>)
    ensures |r| == |projects|
    ensures var k := ProjectIndex(projects, projectId);
      && (k >= 0 ==> forall i :: 0 <= i < |r| && i != k ==> r[i] == projects[i])
      && (k == -1 || projects[k].checklist.None? ==> r == projects)
      && (k >= 0 && projects[k].checklist.Some? ==>
            var c := projects[k].checklist.value;
            var j := ItemIndex(c, itemId);
            && r[k] == projects[k].(checklist := r[k].checklist)
            && r[k].checklist.Some? && |r[k].checklist.value| == |c|
            && forall i :: 0 <= i < |c| ==>
                 r[k].checklist.value[i] == (if i == j then c[i].(completed := !c[i].completed) else c[i]))
  {
    var k := ProjectIndex(projects, projectId);
    if k == -1 then projects
    else
      var p := projects[k];
      match p.checklist
      case None => projects
      case Some(c) =>
        var j := ItemIndex(c, itemId);
        if j == -1 then projects
        else projects[k := p.(checklist := Some(c[j := c[j].(completed := !c[j].completed)]))]
  }

  // ------------------------------------------------------------ projects page

  /** `handleLogCommit`: nothing is written when the commit is already logged
      today; otherwise the streak grows by one whatever the gap, and the
      commit date becomes today. */
  function PageLogCommit(p: Project, today: Date, now: Instant): (r: Option<Project>)
    ensures r.None? <==> p.lastCommitDate == Some(today)
    ensures r.Some? ==> r.value == p.(commitStreak := p.commitStreak + 1, lastCommitDate := Some(today), updatedAt := now)
  {
    if p.lastCommitDate == Some(today) then None
    else Some(p.(commitStreak := p.commitStreak + 1, lastCommitDate := Some(today), updatedAt := now))
  }

  /** The two streak writers agree on a commit the day after the last one and
      part ways after a gap: the store restarts at 1, the page keeps
      counting. */
  lemma CommitWritersCompare(projects: seq<Project>, projectId: string, today: Date, yesterday: Date, now: Instant)
    requires today != yesterday
    requires ProjectIndex(projects, projectId) >= 0
    ensures var k := ProjectIndex(projects, projectId);
      var p := projects[k];
      && (p.lastCommitDate == Some(yesterday) ==>
            Some(LogProjectCommit(projects, projectId, today, yesterday, now)[k]) == PageLogCommit(p, today, now))
      && (p.lastCommitDate != Some(yesterday) && p.lastCommitDate != Some(today) && p.commitStreak != 0 ==>
            LogProjectCommit(projects, projectId, today, yesterday, now)[k].commitStreak == 1
            && PageLogCommit(p, today, now).value.commitStreak == p.commitStreak + 1 != 1)
  {
  }

  /** The five items the page installs on entering Deployment Ready. */
  const PageChecklist: seq<ChecklistItem> :=
    [ChecklistItem("1", "Linting & Type Check Passed", false),
     ChecklistItem("2", "Environment Variables Secure", false),
     ChecklistItem("3", "Build Succeeds Locally", false),
     ChecklistItem("4", "Database Migrations Applied", false),
     ChecklistItem("5", "Smoke Test Critical Paths", false)]

  /** `handleStatusChange`: the status always changes (no publish gate); a
      five-item checklist is installed only when moving to Deployment Ready
      with an absent or empty checklist. */
  function PageStatusChange(p: Project, newStatus: ProjectStatus, now: Instant): (r: Project)
    ensures r.status == newStatus && r.updatedAt == now
    ensures r == p.(status := newStatus, updatedAt := now, checklist := r.checklist)
    ensures newStatus == DeploymentReady && (p.checklist.None? || p.checklist.value == []) ==>
      && r.checklist == Some(PageChecklist)
      && |r.checklist.value| == 5
      && forall i :: 0 <= i < 5 ==> !r.checklist.value[i].completed
    ensures !(newStatus == DeploymentReady && (p.checklist.None? || p.checklist.value == [])) ==> r.checklist == p.checklist
  {
    var updated := p.(status := newStatus, updatedAt := now);
    if newStatus == DeploymentReady && (p.checklist.None? || p.checklist.value == []) then
      updated.(checklist := Some(PageChecklist))
    else updated
  }

  /** Repeating a status change only moves the update time: the checklist
      the first change installed is not empty, so no second one replaces it. */
  lemma PageStatusChangeTwice(p: Project, newStatus: ProjectStatus, now: Instant, later: Instant)
    ensures PageStatusChange(PageStatusChange(p, newStatus, now), newStatus, later) == PageStatusChange(p, newStatus, later)
  {
  }

  /** The two status writers agree except on Published and Deployment Ready:
      the store refuses to publish over an unticked item while the page
      publishes anyway, and entering Deployment Ready the store always
      installs its own six items while the page installs its five only over
      an absent or empty checklist. */
  lemma StatusWritersCompare(projects: seq<Project>, projectId: string, newStatus: ProjectStatus, newId: nat -> string, now: Instant)
    requires ProjectIndex(projects, projectId) >= 0
    ensures var k := ProjectIndex(projects, projectId);
      var p := projects[k];
      var s := UpdateProjectStatus(projects, projectId, newStatus, newId, now)[k];
      var q := PageStatusChange(p, newStatus, now);
      && (newStatus != DeploymentReady && (newStatus != Published || ChecklistDone(p.checklist)) ==> s == q)
      && (newStatus == Published && !ChecklistDone(p.checklist) ==> s == p && q.status == Published)
      && (newStatus == DeploymentReady && p.status == DeploymentReady ==> s == q.(checklist := p.checklist))
      && (newStatus == DeploymentReady && p.status != DeploymentReady ==>
            && s == q.(checklist := Some(Unchecked(StoreChecklistLabels, newId)))
            && q.checklist == (if p.checklist.None? || p.checklist.value == [] then Some(PageChecklist) else p.checklist))
  {
  }

  /** `toggleChecklistItem` on the page: every item with the id is flipped
      (not only the first); no checklist means nothing is written. */
  function PageToggleChecklistItem(p: Project, itemId: string, now: Instant): (r: Option<Project>)
    ensures r.None? <==> p.checklist.None?
    ensures r.Some? ==>
      && r.value == p.(checklist := r.value.checklist, updatedAt := now)
      && r.value.checklist.Some? && |r.value.checklist.value| == |p.checklist.value|
      && forall i :: 0 <= i < |p.checklist.value| ==>
           var item := p.checklist.value[i];
           r.value.checklist.value[i] == (if item.id == itemId then item.(completed := !item.completed) else item)
  {
    match p.checklist
    case None => None
    case Some(c) =>
      var flipped := seq(|c|, i requires 0 <= i < |c| =>
                          if c[i].id == itemId then c[i].(completed := !c[i].completed) else c[i]);
      Some(p.(checklist := Some(flipped), updatedAt := now))
  }

  /** Toggling the same item twice restores the checklist. */
  lemma PageToggleTwice(p: Project, itemId: string, now: Instant, later: Instant)
    requires p.checklist.Some?
    ensures PageToggleChecklistItem(PageToggleChecklistItem(p, itemId, now).value, itemId, later).value.checklist == p.checklist
  {
    var once := PageToggleChecklistItem(p, itemId, now).value;
    var twice := PageToggleChecklistItem(once, itemId, later).value;
    assert twice.checklist.value == p.checklist.value;
  }

  /** The two toggles agree when the id labels at most one item. */
  lemma TogglesAgreeOnUniqueIds(projects: seq<Project>, projectId: string, itemId: string, now: Instant)
    requires ProjectIndex(projects, projectId) >= 0
    requires var p := projects[ProjectIndex(projects, projectId)];
      p.checklist.Some? &&
      forall i, j :: 0 <= i < j < |p.checklist.value| ==> p.checklist.value[i].id != p.checklist.value[j].id
    ensures var k := ProjectIndex(projects, projectId);
      ToggleProjectChecklistItem(projects, projectId, itemId)[k].checklist
        == PageToggleChecklistItem(projects[k], itemId, now).value.checklist
  {
    var k := ProjectIndex(projects, projectId);
    var c := projects[k].checklist.value;
    var a := ToggleProjectChecklistItem(projects, projectId, itemId)[k].checklist;
    var b := PageToggleChecklistItem(projects[k], itemId, now).value.checklist;
    var j := ItemIndex(c, itemId);
    assert a.Some? && b.Some? && |a.value| == |b.value| == |c|;
    forall i | 0 <= i < |c| ensures a.value[i] == b.value[i] {
      if c[i].id == itemId {
        assert j >= 0 && c[j].id == itemId;
        assert i == j;
      }
    }
    assert a.value == b.value;
  }

  /** The status filter: `None` is "All". */
  function FilterByStatus(projects: seq<Project>, status: Option<ProjectStatus>): (r: seq<Project>)
    ensures status.None? ==> r == projects
    ensures status.Some? ==> forall i :: 0 <= i < |r| ==> r[i].status == status.value
  {
    match status
    case None => projects
    case Some(s) => Filter(projects, (p: Project) => p.status == s)
  }

  /** Every project with the chosen status is shown, and only those. */
  lemma FilterByStatusExact(projects: seq<Project>, s: ProjectStatus, p: Project)
    ensures p in FilterByStatus(projects, Some(s)) <==> p in projects && p.status == s
  {
    var r := FilterByStatus(projects, Some(s));
    if p in projects && p.status == s {
      var i :| 0 <= i < |projects| && projects[i] == p;
      FilterKeeps(projects, (q: Project) => q.status == s, i);
    }
    if p in r {
      var j :| 0 <= j < |r| && r[j] == p;
      FilterFrom(projects, (q: Project) => q.status == s, j);
    }
  }
}
