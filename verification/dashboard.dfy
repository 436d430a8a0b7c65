/** The dashboard's view of today: main tasks and sub-tasks, each split into
    open and finished; whether the routine is complete; today's progress;
    which task cards are DevOps video tasks; and the sub-task form. */
module Dashboard {
  import opened Wrappers
  import opened Dates
  import opened Seqs
  import opened Text
  import opened Percent
  import opened Models
  import opened Routine

  /** Today's main tasks and sub-tasks, each split into open and finished. */
  datatype Board = Board(openMain: seq<Task>, doneMain: seq<Task>, openSub: seq<Task>, doneSub: seq<Task>)

  /** The dashboard's four task lists for the day `today`. The source filters
      main (or sub) tasks of today first and then splits by `completed`; one
      filter by the conjunction keeps the same tasks in the same order
      (`Seqs.FilterFilter`). */
  function Split(tasks: seq<Task>, today: Date): (b: Board)
    ensures forall i :: 0 <= i < |b.openMain| ==> b.openMain[i].date == today && !b.openMain[i].isSubTask && !b.openMain[i].completed
    ensures forall i :: 0 <= i < |b.doneMain| ==> b.doneMain[i].date == today && !b.doneMain[i].isSubTask && b.doneMain[i].completed
    ensures forall i :: 0 <= i < |b.openSub| ==> b.openSub[i].date == today && b.openSub[i].isSubTask && !b.openSub[i].completed
    ensures forall i :: 0 <= i < |b.doneSub| ==> b.doneSub[i].date == today && b.doneSub[i].isSubTask && b.doneSub[i].completed
  {
    Board(Filter(tasks, (t: Task) => !t.isSubTask && t.date == today && !t.completed),
          Filter(tasks, (t: Task) => !t.isSubTask && t.date == today && t.completed),
          Filter(tasks, (t: Task) => t.isSubTask && t.date == today && !t.completed),
          Filter(tasks, (t: Task) => t.isSubTask && t.date == today && t.completed))
  }

  /** The four lists hold exactly today's tasks: none is lost, none is shown
      twice. */
  lemma SplitPartitionsToday(tasks: seq<Task>, today: Date)
    ensures var b := Split(tasks, today);
      multiset(b.openMain) + multiset(b.doneMain) + multiset(b.openSub) + multiset(b.doneSub)
        == multiset(DatedOn(tasks, today))
  {
    FilterFourWay(tasks, (t: Task) => t.date == today, (t: Task) => !t.isSubTask, (t: Task) => t.isSubTask,
                  (t: Task) => !t.completed, (t: Task) => t.completed,
                  (t: Task) => !t.isSubTask && t.date == today && !t.completed,
                  (t: Task) => !t.isSubTask && t.date == today && t.completed,
                  (t: Task) => t.isSubTask && t.date == today && !t.completed,
                  (t: Task) => t.isSubTask && t.date == today && t.completed);
  }

  /** `isRoutineComplete`: no open main task is left, except, in freelance
      mode, Freelancing and Lead tasks. */
  predicate IsRoutineComplete(tasks: seq<Task>, today: Date, freelanceMode: bool)
  {
    Filter(Split(tasks, today).openMain,
           (t: Task) => !freelanceMode || (t.category != Freelancing && t.category != Lead)) == []
  }

  /** The routine is complete exactly when every open main task of today is
      excused: freelance mode is on and the task is a Freelancing or Lead
      task. */
  lemma IsRoutineCompleteIff(tasks: seq<Task>, today: Date, freelanceMode: bool)
    ensures IsRoutineComplete(tasks, today, freelanceMode) <==>
      forall k :: 0 <= k < |tasks| && tasks[k].date == today && !tasks[k].isSubTask && !tasks[k].completed ==>
        freelanceMode && (tasks[k].category == Freelancing || tasks[k].category == Lead)
  {
    var p := (t: Task) => !freelanceMode || (t.category != Freelancing && t.category != Lead);
    var isOpenMain := (t: Task) => !t.isSubTask && t.date == today && !t.completed;
    var open := Split(tasks, today).openMain;
    FilterEmpty(open, p);
    if IsRoutineComplete(tasks, today, freelanceMode) {
      forall k | 0 <= k < |tasks| && tasks[k].date == today && !tasks[k].isSubTask && !tasks[k].completed
        ensures freelanceMode && (tasks[k].category == Freelancing || tasks[k].category == Lead)
      {
        FilterKeeps(tasks, isOpenMain, k);
        var o :| 0 <= o < |open| && open[o] == tasks[k];
        assert !p(open[o]);
      }
    } else {
      var o :| 0 <= o < |open| && p(open[o]);
      FilterFrom(tasks, isOpenMain, o);
    }
  }

  /** Today's progress: finished and total counts and the rounded percentage. */
  datatype Progress = Progress(completed: nat, total: nat, percentage: nat)

  /** `progress`: counts over the tasks dated today only. */
  function DayProgress(tasks: seq<Task>, today: Date): (p: Progress)
    ensures p.completed <= p.total == |DatedOn(tasks, today)|
    ensures p.percentage <= 100
    ensures p.total == 0 ==> p.percentage == 0
    ensures p.completed == Count(DatedOn(tasks, today), (t: Task) => t.completed)
    ensures p.percentage == RoundPercent(p.completed, p.total)
  {
    var todays := DatedOn(tasks, today);
    var done := Count(todays, (t: Task) => t.completed);
    RoundPercentAtMost100(done, |todays|);
    Progress(done, |todays|, RoundPercent(done, |todays|))
  }

  /** With fewer than 200 tasks today, the dashboard shows 100% exactly when
      every task of today is finished. */
  lemma DayProgressFullIff(tasks: seq<Task>, today: Date)
    requires 0 < |DatedOn(tasks, today)| < 200
    ensures DayProgress(tasks, today).percentage == 100 <==> All(DatedOn(tasks, today), (t: Task) => t.completed)
  {
    var todays := DatedOn(tasks, today);
    FilterFull(todays, (t: Task) => t.completed);
    RoundPercentFullSmall(Count(todays, (t: Task) => t.completed), |todays|);
  }

  /** `task.category === 'DevOps' && task.title.toLowerCase().includes('video')` */
  predicate IsDevOpsVideo(t: Task)
  {
    t.category == TaskCategory.DevOps && ContainsIgnoreCase(t.title, "video")
  }

  /** A card is a DevOps video card exactly when the task is a DevOps task and
      "video" occurs somewhere in its lower-cased title. */
  lemma IsDevOpsVideoIff(t: Task)
    ensures IsDevOpsVideo(t) <==> t.category == TaskCategory.DevOps && exists i :: OccursAt(Lower(t.title), "video", i)
  {
    assert Lower("video") == "video";
    ContainsIff(Lower(t.title), "video");
  }

  /** A DevOps task titled like the template's video lines (Monday, Wednesday
      and Friday all start with "DevOps video") is recognised as a video task. */
  lemma TemplateVideoTaskRecognised(t: Task)
    requires t.category == TaskCategory.DevOps && |t.title| >= 12 && t.title[..12] == "DevOps video"
    ensures IsDevOpsVideo(t)
  {
    var l := Lower(t.title);
    assert t.title[7..12] == "video" by {
      assert t.title[7..12] == t.title[..12][7..12];
    }
    assert l[7..12] == "video" by {
      forall k | 7 <= k < 12 ensures l[k] == t.title[k] {
        assert t.title[k] == t.title[7..12][k - 7];
      }
    }
    LowerVideo();
    OccursIgnoreCase(t.title, "video", 7);
  }

  lemma LowerVideo()
    ensures Lower("video") == "video"
  {
  }

  /** The sub-task form: a blank title is refused; otherwise a new open
      sub-task of low priority dated today, titled with the trimmed title. */
  function SubmitSubTask(title: string, category: TaskCategory, today: Date, id: string): (r: Option<Task>)
    ensures r.None? <==> Blank(title)
    ensures r.Some? ==> var t := r.value;
      && t.isSubTask && !t.completed && t.priority == Low && t.date == today
      && t.category == category && t.id == id && t.description == None
      && |t.title| > 0 && !IsWhite(t.title[0]) && !IsWhite(t.title[|t.title| - 1])
      && exists i :: TrimmedAt(title, t.title, i)
  {
    TrimEmptyIffBlank(title);
    var trimmed := Trim(title);
    if trimmed == [] then None
    else Some(Task(id, trimmed, None, category, false, today, true, Low))
  }
}
