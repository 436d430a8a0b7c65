/** The chain tracker: today's tasks and notes read as three pipelines
    (Authority, Asset, Revenue), each with a rounded percentage and steps that
    are idle, partial or done, plus a seven-day activity strip. */
module Chains {
  import opened Dates
  import opened Wrappers
  import opened Seqs
  import opened Text
  import opened Percent
  import opened Models
  import opened Routine

  datatype StepStatus = Idle | Partial | Done

  /** `st` is the status a step shows when it watches the tasks of `s`
      satisfying `p`: done when one of them is completed, idle when there are
      none, partial otherwise. */
  ghost predicate Detects(s: seq<Task>, p: Task -> bool, st: StepStatus)
  {
    && (st == Done <==> exists i :: 0 <= i < |s| && p(s[i]) && s[i].completed)
    && (st == Idle <==> forall i :: 0 <= i < |s| ==> !p(s[i]))
  }

  predicate Completed(t: Task) { t.completed }
  predicate IsAINews(t: Task) { t.category == AINews }
  predicate IsPresence(t: Task) { t.category == OnlinePresence }
  predicate IsAuthority(t: Task) { IsAINews(t) || IsPresence(t) }
  predicate AINewsDone(t: Task) { IsAINews(t) && t.completed }
  predicate PresenceDone(t: Task) { IsPresence(t) && t.completed }
  predicate IsAsset(t: Task) { t.category == TaskCategory.DevOps }
  predicate AssetDone(t: Task) { IsAsset(t) && t.completed }
  predicate IsLead(t: Task) { t.category == Lead }
  predicate IsRevenue(t: Task) { t.category == Freelancing || IsLead(t) }

  /** `t.title.toLowerCase().includes(keyword)` for a lower-case keyword. */
  predicate TitleHas(t: Task, keyword: string)
  {
    Contains(Lower(t.title), keyword)
  }

  predicate IsDevOpsNote(n: Note) { n.noteType == NoteType.DevOps }
  predicate HasSummary(n: Note) { Contains(Lower(n.content), "summary:") }
  predicate IsPractice(t: Task) { t.completed && TitleHas(t, "practice") }

  /** `n.createdAt.startsWith(day)`: the notes created on `day`. */
  function NotesOn(notes: seq<Note>, day: Date): seq<Note>
  {
    Filter(notes, (n: Note) => n.createdAt.date == day)
  }

  // ---------------------------------------------------------------- Authority

  datatype Authority = Authority(
    pct: nat, doneCount: nat, total: nat,
    step1: StepStatus, step2: StepStatus, step3: StepStatus, step4: StepStatus, step5: StepStatus)

  /** The Authority pipeline over today's tasks `todays`: AINews and
      OnlinePresence tasks, their completion percentage and five steps. */
  function AuthorityChain(todays: seq<Task>): (a: Authority)
    ensures a.doneCount <= a.total <= |todays|
    ensures a.pct <= 100 && (a.total == 0 ==> a.pct == 0)
    ensures a.total == Count(todays, IsAuthority)
    ensures a.doneCount == Count(Filter(todays, IsAuthority), Completed)
    ensures a.pct == RoundPercent(a.doneCount, a.total)
  {
    var auth := Filter(todays, IsAuthority);
    var done := Filter(auth, Completed);
    var aiDone := Filter(auth, AINewsDone);
    var presenceDone := Filter(auth, PresenceDone);
    var step1 := if Any(auth, IsAINews) then (if |aiDone| > 0 then Done else Partial) else Idle;
    var step2 := if |aiDone| > 0 then Done else Idle;
    var step3 := if step2 == Done then Done else Idle;
    var step4 := if |presenceDone| > 0 then Done else if Any(auth, IsPresence) then Partial else Idle;
    var step5 := if |presenceDone| >= 2 then Done else if |presenceDone| >= 1 then Partial else Idle;
    RoundPercentAtMost100(|done|, |auth|);
    Authority(RoundPercent(|done|, |auth|), |done|, |auth|, step1, step2, step3, step4, step5)
  }

  /** With fewer than 200 Authority tasks today, the pipeline shows 100%
      exactly when there is one and every one of them is completed. */
  lemma AuthorityFullIff(todays: seq<Task>)
    requires Count(todays, IsAuthority) < 200
    ensures AuthorityChain(todays).pct >= 100 <==>
      && (exists i :: 0 <= i < |todays| && IsAuthority(todays[i]))
      && (forall i :: 0 <= i < |todays| && IsAuthority(todays[i]) ==> todays[i].completed)
  {
    var auth := Filter(todays, IsAuthority);
    FilterEmpty(todays, IsAuthority);
    FilterFull(auth, Completed);
    AllFilterIff(todays, IsAuthority, Completed);
    if |auth| > 0 {
      RoundPercentFullSmall(|Filter(auth, Completed)|, |auth|);
    }
  }

  /** Steps 1 and 4 watch today's AINews and OnlinePresence tasks; steps 2
      and 3 are the same, never partial, and done exactly when an AINews task
      is completed today. */
  lemma AuthoritySteps(todays: seq<Task>)
    ensures Detects(todays, IsAINews, AuthorityChain(todays).step1)
    ensures Detects(todays, IsPresence, AuthorityChain(todays).step4)
    ensures AuthorityChain(todays).step2 == AuthorityChain(todays).step3 != Partial
    ensures AuthorityChain(todays).step2 == Done <==> exists i :: 0 <= i < |todays| && AINewsDone(todays[i])
  {
    var auth := Filter(todays, IsAuthority);
    AnyFilterIff(todays, IsAuthority, IsAINews);
    AnyFilterIff(todays, IsAuthority, IsPresence);
    AnyFilterIff(todays, IsAuthority, AINewsDone);
    AnyFilterIff(todays, IsAuthority, PresenceDone);
    FilterEmpty(auth, AINewsDone);
    FilterEmpty(auth, PresenceDone);
  }

  /** Step 5 counts today's completed OnlinePresence tasks: two or more is
      done, one is partial, none is idle. */
  lemma AuthorityStep5(todays: seq<Task>)
    ensures var n := Count(todays, PresenceDone);
      && (AuthorityChain(todays).step5 == Done <==> n >= 2)
      && (AuthorityChain(todays).step5 == Partial <==> n == 1)
      && (AuthorityChain(todays).step5 == Idle <==> n == 0)
  {
    FilterFilter(todays, IsAuthority, PresenceDone, PresenceDone);
  }

  // -------------------------------------------------------------------- Asset

  datatype Asset = Asset(pct: nat, noteCount: nat, doneCount: nat, taskCount: nat, flags: seq<bool>)

  function Holds(b: bool): bool { b }

  /** The Asset pipeline over today's tasks and notes: four step flags
      (a DevOps task completed; a DevOps note written; a note holding
      "summary:"; a practice task completed or two DevOps tasks completed)
      and the share of flags set. */
  function AssetChain(todays: seq<Task>, todayNotes: seq<Note>): (a: Asset)
    ensures |a.flags| == 4
    ensures a.pct == 25 * Count(a.flags, Holds) && a.pct <= 100
  {
    var assetTasks := Filter(todays, IsAsset);
    var assetDone := Filter(assetTasks, Completed);
    var assetNotes := Filter(todayNotes, IsDevOpsNote);
    var flags := [|assetDone| > 0, |assetNotes| > 0, Any(assetNotes, HasSummary),
                  Any(assetTasks, IsPractice) || |assetDone| >= 2];
    var n := Count(flags, Holds);
    QuarterPercent(n);
    Asset(RoundPercent(n, 4), |assetNotes|, |assetDone|, |assetTasks|, flags)
  }

  /** `Math.round(n / 4 * 100)` is exactly `25 * n`. */
  lemma QuarterPercent(n: nat)
    ensures RoundPercent(n, 4) == 25 * n
  {
    DivUnique(200 * n + 4, 8, 25 * n);
  }

  /** `astep(i)`: done when flag `i` is set; otherwise step 0 is partial while
      DevOps tasks exist and step 1 while DevOps notes exist; idle otherwise
      (and for any position past the four flags). */
  function AssetStep(a: Asset, i: int): StepStatus
  {
    if 0 <= i < |a.flags| && a.flags[i] then Done
    else if (i == 0 && a.taskCount > 0) || (i == 1 && a.noteCount > 0) then Partial
    else Idle
  }

  /** What each flag means over today's tasks and notes. */
  lemma AssetFlags(todays: seq<Task>, todayNotes: seq<Note>)
    ensures var f := AssetChain(todays, todayNotes).flags;
      && (f[0] <==> exists i :: 0 <= i < |todays| && AssetDone(todays[i]))
      && (f[1] <==> exists j :: 0 <= j < |todayNotes| && IsDevOpsNote(todayNotes[j]))
      && (f[2] <==> exists j :: 0 <= j < |todayNotes| && IsDevOpsNote(todayNotes[j]) && HasSummary(todayNotes[j]))
      && (f[3] <==> (exists i :: 0 <= i < |todays| && IsAsset(todays[i]) && IsPractice(todays[i]))
                    || Count(todays, AssetDone) >= 2)
  {
    var assetTasks := Filter(todays, IsAsset);
    FilterEmpty(todayNotes, IsDevOpsNote);
    FilterEmpty(assetTasks, Completed);
    AnyFilterIff(todays, IsAsset, Completed);
    AnyFilterIff(todayNotes, IsDevOpsNote, HasSummary);
    AnyFilterIff(todays, IsAsset, IsPractice);
    FilterFilter(todays, IsAsset, Completed, AssetDone);
  }

  /** A step is done exactly when its flag is set; only step 0 can be
      partial, and it is partial exactly when DevOps tasks exist today and none
      is completed. */
  lemma AssetSteps(todays: seq<Task>, todayNotes: seq<Note>)
    ensures var a := AssetChain(todays, todayNotes);
      && (forall i :: 0 <= i < 4 ==> (AssetStep(a, i) == Done <==> a.flags[i]))
      && (AssetStep(a, 0) == Partial <==>
            && (exists i :: 0 <= i < |todays| && IsAsset(todays[i]))
            && !exists i :: 0 <= i < |todays| && AssetDone(todays[i]))
      && AssetStep(a, 1) != Partial && AssetStep(a, 2) != Partial && AssetStep(a, 3) != Partial
  {
    AssetFlags(todays, todayNotes);
    FilterEmpty(todays, IsAsset);
    FilterEmpty(todayNotes, IsDevOpsNote);
  }

  // ------------------------------------------------------------------ Revenue

  datatype Revenue = Revenue(pct: nat, activated: bool, leadsAdded: nat, proposalsDone: nat, followUpsDone: nat)

  predicate ProposalOrSend(t: Task) { TitleHas(t, "proposal") || TitleHas(t, "send") }
  predicate FollowUp(t: Task) { TitleHas(t, "follow") }

  /** The Revenue pipeline over today's tasks: Freelancing and Lead tasks,
      the share completed, the leads of today and the completed proposals and
      follow-ups. */
  function RevenueChain(todays: seq<Task>): (r: Revenue)
    ensures r.pct <= 100
    ensures r.pct == 0 <== Count(todays, IsRevenue) == 0
    ensures r.activated <==> exists i :: 0 <= i < |todays| && IsRevenue(todays[i]) && todays[i].completed
    ensures r.proposalsDone <= |todays| && r.followUpsDone <= |todays| && r.leadsAdded <= |todays|
    ensures var rev := Filter(todays, IsRevenue);
      var revDone := Filter(rev, Completed);
      && r.pct == RoundPercent(|revDone|, |rev|)
      && r.leadsAdded == Count(todays, IsLead)
      && r.proposalsDone == Count(revDone, ProposalOrSend)
      && r.followUpsDone == Count(revDone, FollowUp)
  {
    var rev := Filter(todays, IsRevenue);
    var revDone := Filter(rev, Completed);
    FilterEmpty(rev, Completed);
    AnyFilterIff(todays, IsRevenue, Completed);
    RoundPercentAtMost100(|revDone|, |rev|);
    Revenue(RoundPercent(|revDone|, |rev|), |revDone| >= 1, Count(todays, IsLead),
            Count(revDone, ProposalOrSend), Count(revDone, FollowUp))
  }

  /** With fewer than 200 Revenue tasks today, the pipeline shows 100%
      exactly when there is one and every one of them is completed. */
  lemma RevenueFullIff(todays: seq<Task>)
    requires Count(todays, IsRevenue) < 200
    ensures RevenueChain(todays).pct >= 100 <==>
      && (exists i :: 0 <= i < |todays| && IsRevenue(todays[i]))
      && (forall i :: 0 <= i < |todays| && IsRevenue(todays[i]) ==> todays[i].completed)
  {
    var rev := Filter(todays, IsRevenue);
    FilterEmpty(todays, IsRevenue);
    FilterFull(rev, Completed);
    AllFilterIff(todays, IsRevenue, Completed);
    if |rev| > 0 {
      RoundPercentFullSmall(|Filter(rev, Completed)|, |rev|);
    }
  }

  /** A task a revenue step watches: one of the step's categories and, when a
      keyword is given, a title containing it. An empty keyword reads as no
      keyword in the source, and every title contains it here. */
  predicate RevMatch(cats: set<TaskCategory>, keyword: Option<string>, t: Task)
  {
    t.category in cats && (keyword.None? || TitleHas(t, keyword.value))
  }

  /** `revStep(cats, keyword)` over today's Revenue tasks `rev`. */
  function RevStep(rev: seq<Task>, cats: set<TaskCategory>, keyword: Option<string>): (st: StepStatus)
    ensures st == Done <==> exists i :: 0 <= i < |rev| && RevMatch(cats, keyword, rev[i]) && rev[i].completed
    ensures st == Idle <==> forall i :: 0 <= i < |rev| ==> !RevMatch(cats, keyword, rev[i])
  {
    var matching := Filter(rev, (t: Task) => RevMatch(cats, keyword, t));
    var done := Filter(matching, Completed);
    FilterEmpty(matching, Completed);
    FilterEmpty(rev, (t: Task) => RevMatch(cats, keyword, t));
    AnyFilterIff(rev, (t: Task) => RevMatch(cats, keyword, t), Completed);
    if |done| > 0 then Done else if |matching| > 0 then Partial else Idle
  }

  /** The four revenue steps as the page shows them. Step 2 watches
      "proposal" and falls back to "send" only while that is idle; step 4
      watches "close" and falls back to the Lead step only while that is
      idle. */
  function RevenueSteps(rev: seq<Task>): (steps: seq<StepStatus>)
    ensures |steps| == 4
  {
    var proposal := RevStep(rev, {Freelancing}, Some("proposal"));
    var close := RevStep(rev, {Freelancing}, Some("close"));
    [RevStep(rev, {Lead}, None),
     if proposal != Idle then proposal else RevStep(rev, {Freelancing}, Some("send")),
     RevStep(rev, {Freelancing}, Some("follow")),
     if close != Idle then close else RevStep(rev, {Lead}, None)]
  }

  predicate FreelanceWith(t: Task, keyword: string) { t.category == Freelancing && TitleHas(t, keyword) }

  /** Steps 1 and 3 watch the Lead tasks and the Freelancing "follow" tasks;
      so an open follow-up task alone makes step 3 partial. */
  lemma RevenueStepsPlain(rev: seq<Task>)
    ensures Detects(rev, IsLead, RevenueSteps(rev)[0])
    ensures Detects(rev, (t: Task) => FreelanceWith(t, "follow"), RevenueSteps(rev)[2])
  {
  }

  /** Step 2: idle exactly when no Freelancing task mentions "proposal" or
      "send"; done when a "proposal" task is completed, or when none
      mentions "proposal" and a "send" task is completed. */
  lemma RevenueStep2(rev: seq<Task>)
    ensures var s := RevenueSteps(rev)[1];
      && (s == Idle <==> forall i :: 0 <= i < |rev| ==> !FreelanceWith(rev[i], "proposal") && !FreelanceWith(rev[i], "send"))
      && (s == Done <==>
            || (exists i :: 0 <= i < |rev| && FreelanceWith(rev[i], "proposal") && rev[i].completed)
            || ((forall i :: 0 <= i < |rev| ==> !FreelanceWith(rev[i], "proposal"))
                && exists i :: 0 <= i < |rev| && FreelanceWith(rev[i], "send") && rev[i].completed))
  {
  }

  /** Step 4: idle exactly when no Freelancing "close" task and no Lead task
      exists; done when a "close" task is completed, or when there is none and
      a Lead task is completed. */
  lemma RevenueStep4(rev: seq<Task>)
    ensures var s := RevenueSteps(rev)[3];
      && (s == Idle <==> forall i :: 0 <= i < |rev| ==> !FreelanceWith(rev[i], "close") && !IsLead(rev[i]))
      && (s == Done <==>
            || (exists i :: 0 <= i < |rev| && FreelanceWith(rev[i], "close") && rev[i].completed)
            || ((forall i :: 0 <= i < |rev| ==> !FreelanceWith(rev[i], "close"))
                && exists i :: 0 <= i < |rev| && IsLead(rev[i]) && rev[i].completed))
  {
  }

  // ------------------------------------------------------------------- Weekly

  datatype DayActivity = DayActivity(day: Date, isToday: bool, authDone: bool, assetDone: bool, revDone: bool)

  /** One cell of the seven-day strip: Authority done when the day has
      Authority tasks and all are completed; Asset done when it has a DevOps
      task and a DevOps note; Revenue done when one of its Revenue tasks is
      completed. */
  function ActivityOn(tasks: seq<Task>, notes: seq<Note>, day: Date, today: Date): DayActivity
  {
    var dt := DatedOn(tasks, day);
    var authT := Filter(dt, IsAuthority);
    var assetT := Filter(dt, IsAsset);
    var revT := Filter(dt, IsRevenue);
    DayActivity(day, day == today,
                |authT| > 0 && All(authT, Completed),
                |assetT| > 0 && Any(NotesOn(notes, day), IsDevOpsNote),
                |revT| > 0 && Any(revT, Completed))
  }

  /** The strip's flags in terms of the day's tasks and notes. */
  lemma ActivityOnIff(tasks: seq<Task>, notes: seq<Note>, day: Date, today: Date)
    ensures var dt := DatedOn(tasks, day);
      var a := ActivityOn(tasks, notes, day, today);
      && (a.authDone <==>
            && (exists i :: 0 <= i < |dt| && IsAuthority(dt[i]))
            && forall i :: 0 <= i < |dt| && IsAuthority(dt[i]) ==> dt[i].completed)
      && (a.assetDone <==>
            && (exists i :: 0 <= i < |dt| && IsAsset(dt[i]))
            && exists j :: 0 <= j < |notes| && notes[j].createdAt.date == day && IsDevOpsNote(notes[j]))
      && (a.revDone <==> exists i :: 0 <= i < |dt| && IsRevenue(dt[i]) && dt[i].completed)
  {
    var dt := DatedOn(tasks, day);
    FilterEmpty(dt, IsAuthority);
    FilterEmpty(dt, IsAsset);
    FilterEmpty(dt, IsRevenue);
    AllFilterIff(dt, IsAuthority, Completed);
    AnyFilterIff(dt, IsRevenue, Completed);
    AnyFilterIff(notes, (n: Note) => n.createdAt.date == day, IsDevOpsNote);
  }

  /** `getLast7Days().map(...)`: one cell per day of the last seven, oldest
      first; only the last is today. */
  function Week(tasks: seq<Task>, notes: seq<Note>, today: Date): (w: seq<DayActivity>)
    requires Valid(today)
    ensures |w| == 7 && w[6].day == today
    ensures forall i :: 0 <= i < 7 ==> w[i].day == Last7Days(today)[i] && (w[i].isToday <==> i == 6)
  {
    var days := Last7Days(today);
    Last7DaysConsecutive(today);
    seq(7, i requires 0 <= i < 7 => ActivityOn(tasks, notes, days[i], today))
  }

  /** Today's cell agrees with the pipelines: Authority done exactly when the
      pipeline has tasks and all are finished, Revenue done exactly when it is
      activated, Asset done exactly when there are DevOps tasks and the note
      flag is set. */
  lemma WeekTodayAgrees(tasks: seq<Task>, notes: seq<Note>, today: Date)
    requires Valid(today)
    ensures var cell := Week(tasks, notes, today)[6];
      var todays := DatedOn(tasks, today);
      var a := AuthorityChain(todays);
      var s := AssetChain(todays, NotesOn(notes, today));
      && (cell.authDone <==> a.total > 0 && a.doneCount == a.total)
      && (cell.revDone <==> RevenueChain(todays).activated)
      && (cell.assetDone <==> s.taskCount > 0 && s.flags[1])
  {
    var todays := DatedOn(tasks, today);
    var auth := Filter(todays, IsAuthority);
    FilterFull(auth, Completed);
    FilterEmpty(Filter(todays, IsRevenue), Completed);
    AnyFilterIff(todays, IsRevenue, Completed);
    FilterEmpty(NotesOn(notes, today), IsDevOpsNote);
  }

  /** `allDone`: all three pipelines at 100% or more. */
  predicate AllDone(a: Authority, s: Asset, r: Revenue)
  {
    a.pct >= 100 && s.pct >= 100 && r.pct >= 100
  }

  /** With fewer than 200 Authority and Revenue tasks, all chains are done
      exactly when every Authority and every Revenue task of today is finished
      (and there is one of each) and all four Asset flags are set. */
  lemma AllDoneIff(todays: seq<Task>, todayNotes: seq<Note>)
    requires Count(todays, IsAuthority) < 200 && Count(todays, IsRevenue) < 200
    ensures AllDone(AuthorityChain(todays), AssetChain(todays, todayNotes), RevenueChain(todays)) <==>
      && (exists i :: 0 <= i < |todays| && IsAuthority(todays[i]))
      && (forall i :: 0 <= i < |todays| && IsAuthority(todays[i]) ==> todays[i].completed)
      && (forall k :: 0 <= k < 4 ==> AssetChain(todays, todayNotes).flags[k])
      && (exists i :: 0 <= i < |todays| && IsRevenue(todays[i]))
      && (forall i :: 0 <= i < |todays| && IsRevenue(todays[i]) ==> todays[i].completed)
  {
    AuthorityFullIff(todays);
    RevenueFullIff(todays);
    var f := AssetChain(todays, todayNotes).flags;
    FilterFull(f, Holds);
  }
}
