/** The daily routine: when nothing is dated today, today's tasks are generated
    from the weekday's template. Three writers do this differently and are kept
    apart here:
    - the local store's `getTodaysTasks` also carries over yesterday's
      unfinished tasks;
    - the dashboard loader's `loadAll` uses the template alone;
    - the "Sync Template" button replaces today's main tasks with the template.
    Today, yesterday, the weekday's template and a supply of fresh ids are
    parameters: the source reads them from the clock and a random generator,
    and always passes `WeeklyTemplate(CurrentWeekday(today))` as `template`. */
module Routine {
  import opened Wrappers
  import opened Dates
  import opened Seqs
  import opened Models

  /** The stored tasks dated `d`. */
  function DatedOn(tasks: seq<Task>, d: Date): seq<Task>
  {
    Filter(tasks, (t: Task) => t.date == d)
  }

  /** Some task of `tasks` has the title `title`. */
  predicate HasTitle(tasks: seq<Task>, title: string)
  {
    exists i :: 0 <= i < |tasks| && tasks[i].title == title
  }

  /** Some entry of `entries` has the title `title`. */
  predicate InTemplate(entries: seq<TemplateEntry>, title: string)
  {
    exists i :: 0 <= i < |entries| && entries[i].title == title
  }

  /** `t` is the fresh task a template entry `e` becomes on the day `d`:
      the entry's fields, not completed, a main task. */
  predicate FromEntry(t: Task, e: TemplateEntry, d: Date)
  {
    && t.title == e.title && t.description == Some(e.description)
    && t.category == e.category && t.priority == e.priority
    && !t.completed && t.date == d && !t.isSubTask
  }

  /** `template.map(...)`: one new task per entry, in template order; the
      `i`-th takes the fresh id `newId(from + i)`. */
  function FromTemplate(entries: seq<TemplateEntry>, today: Date, newId: nat -> string, from: nat): (r: seq<Task>)
    ensures |r| == |entries|
    ensures forall i :: 0 <= i < |r| ==> FromEntry(r[i], entries[i], today) && r[i].id == newId(from + i)
    decreases |entries|
  {
    if |entries| == 0 then []
    else
      var e := entries[0];
      [Task(newId(from), e.title, Some(e.description), e.category, false, today, false, e.priority)]
        + FromTemplate(entries[1..], today, newId, from + 1)
  }

  /** A generated task has a template title exactly when that title is in the
      template. */
  lemma FromTemplateTitles(entries: seq<TemplateEntry>, today: Date, newId: nat -> string, from: nat, title: string)
    ensures HasTitle(FromTemplate(entries, today, newId, from), title) <==> InTemplate(entries, title)
  {
    var r := FromTemplate(entries, today, newId, from);
    if InTemplate(entries, title) {
      var i :| 0 <= i < |entries| && entries[i].title == title;
      assert r[i].title == title;
    }
  }

  /** `{ ...task, id: generateId('task'), date: today }` for each task, the
      `i`-th taking the fresh id `newId(from + i)`. */
  function CarryOver(tasks: seq<Task>, today: Date, newId: nat -> string, from: nat): (r: seq<Task>)
    ensures |r| == |tasks|
    ensures forall i :: 0 <= i < |r| ==> r[i] == tasks[i].(id := newId(from + i), date := today)
    decreases |tasks|
  {
    if |tasks| == 0 then []
    else [tasks[0].(id := newId(from), date := today)] + CarryOver(tasks[1..], today, newId, from + 1)
  }

  /** A task as the dashboard receives it, with the number of notes attached. */
  datatype Counted = Counted(task: Task, noteCount: nat)

  /** The tasks of counted tasks. */
  function Tasks(cs: seq<Counted>): (ts: seq<Task>)
    ensures |ts| == |cs|
    ensures forall i :: 0 <= i < |cs| ==> ts[i] == cs[i].task
  {
    seq(|cs|, i requires 0 <= i < |cs| => cs[i].task)
  }

  /** `getNotesByTaskId(id).length` */
  function NoteCount(notes: seq<Note>, taskId: string): nat
  {
    Count(notes, (n: Note) => n.taskId == Some(taskId))
  }

  /** The store after a call, and the tasks the call returns. */
  datatype Loaded = Loaded(store: seq<Task>, shown: seq<Counted>)

  /** `getTodaysTasks()`. If any task, main or sub, is dated today, those are
      returned with their note counts and nothing is written. Otherwise:
      - one new task is made per entry of the weekday's template;
      - each of yesterday's unfinished tasks whose title no new task has is
        cloned with a fresh id and today's date;
      - the new tasks, then the clones, are appended to the store and returned
        with no notes. */
  function GetTodaysTasks(store: seq<Task>, notes: seq<Note>, today: Date, yesterday: Date,
                          template: seq<TemplateEntry>, newId: nat -> string): (o: Loaded)
    ensures Tasks(o.shown) == DatedOn(o.store, today)
    ensures DatedOn(store, today) != [] ==> o.store == store
    ensures DatedOn(store, today) == [] ==> o.store == store + Tasks(o.shown)
    ensures DatedOn(store, today) == [] ==> Tasks(o.shown) == Generated(store, today, yesterday, template, newId)
    ensures forall i :: 0 <= i < |o.shown| ==>
      o.shown[i].noteCount == if DatedOn(store, today) != [] then NoteCount(notes, o.shown[i].task.id) else 0
  {
    var todays := DatedOn(store, today);
    if |todays| > 0 then
      Loaded(store, WithNoteCounts(todays, notes))
    else
      var combined := Generated(store, today, yesterday, template, newId);
      FilterConcat(store, combined, (t: Task) => t.date == today);
      FilterAll(combined, (t: Task) => t.date == today);
      Loaded(store + combined, WithoutNotes(combined))
  }

  /** `tasks.map(task => ({ ...task, noteCount: getNotesByTaskId(task.id).length }))` */
  function WithNoteCounts(tasks: seq<Task>, notes: seq<Note>): (r: seq<Counted>)
    ensures Tasks(r) == tasks
    ensures forall i :: 0 <= i < |r| ==> r[i].noteCount == NoteCount(notes, r[i].task.id)
  {
    seq(|tasks|, i requires 0 <= i < |tasks| => Counted(tasks[i], NoteCount(notes, tasks[i].id)))
  }

  /** `tasks.map(task => ({ ...task, noteCount: 0 }))` */
  function WithoutNotes(tasks: seq<Task>): (r: seq<Counted>)
    ensures Tasks(r) == tasks
    ensures forall i :: 0 <= i < |r| ==> r[i].noteCount == 0
  {
    seq(|tasks|, i requires 0 <= i < |tasks| => Counted(tasks[i], 0))
  }

  /** Yesterday's unfinished tasks, in store order. */
  function Unfinished(store: seq<Task>, yesterday: Date): seq<Task>
  {
    Filter(store, (t: Task) => t.date == yesterday && !t.completed)
  }

  /** The tasks `getTodaysTasks` generates when nothing is dated today: the
      template tasks, then the carried-over ones. */
  function Generated(store: seq<Task>, today: Date, yesterday: Date, template: seq<TemplateEntry>, newId: nat -> string): (r: seq<Task>)
    ensures forall i :: 0 <= i < |r| ==> r[i].date == today
    ensures |template| <= |r|
    ensures forall i :: 0 <= i < |template| ==> FromEntry(r[i], template[i], today)
  {
    var newTasks := FromTemplate(template, today, newId, 0);
    var carried := CarryOver(Kept(store, yesterday, newTasks), today, newId, |newTasks|);
    newTasks + carried
  }

  /** The generated tasks take the fresh ids in order: the `i`-th gets `newId(i)`. */
  lemma GeneratedIds(store: seq<Task>, today: Date, yesterday: Date, template: seq<TemplateEntry>, newId: nat -> string)
    ensures var g := Generated(store, today, yesterday, template, newId);
      forall i :: 0 <= i < |g| ==> g[i].id == newId(i)
  {
    var g := Generated(store, today, yesterday, template, newId);
    var newTasks := FromTemplate(template, today, newId, 0);
    var carried := CarryOver(Kept(store, yesterday, newTasks), today, newId, |newTasks|);
    assert g == newTasks + carried;
    forall i | 0 <= i < |g| ensures g[i].id == newId(i) {
      if i >= |newTasks| {
        var j := i - |newTasks|;
        assert g[i] == carried[j];
        assert carried[j].id == newId(|newTasks| + j);
      } else {
        assert g[i] == newTasks[i];
      }
    }
  }

  /** Yesterday's unfinished tasks that no new task shares a title with. */
  function Kept(store: seq<Task>, yesterday: Date, newTasks: seq<Task>): seq<Task>
  {
    Filter(Unfinished(store, yesterday), (t: Task) => !HasTitle(newTasks, t.title))
  }

  /** Every task after the template tasks is a clone of one of yesterday's
      unfinished tasks whose title is not a template title; only id and date
      change. Sub-tasks are carried like main tasks. */
  lemma GeneratedCarriedSound(store: seq<Task>, today: Date, yesterday: Date, template: seq<TemplateEntry>, newId: nat -> string, j: int)
    requires |template| <= j < |Generated(store, today, yesterday, template, newId)|
    ensures exists k ::
      && 0 <= k < |store| && store[k].date == yesterday && !store[k].completed
      && !InTemplate(template, store[k].title)
      && Generated(store, today, yesterday, template, newId)[j] == store[k].(id := newId(j), date := today)
  {
    var newTasks := FromTemplate(template, today, newId, 0);
    var unfinished := Unfinished(store, yesterday);
    var kept := Kept(store, yesterday, newTasks);
    var c := kept[j - |template|];
    FilterFrom(unfinished, (t: Task) => !HasTitle(newTasks, t.title), j - |template|);
    var u :| 0 <= u < |unfinished| && unfinished[u] == c;
    FilterFrom(store, (t: Task) => t.date == yesterday && !t.completed, u);
    var k :| 0 <= k < |store| && store[k] == c;
    FromTemplateTitles(template, today, newId, 0, c.title);
  }

  /** Every one of yesterday's unfinished tasks whose title is not a template
      title is carried over. */
  lemma GeneratedCarriedComplete(store: seq<Task>, today: Date, yesterday: Date, template: seq<TemplateEntry>, newId: nat -> string, k: int)
    requires 0 <= k < |store| && store[k].date == yesterday && !store[k].completed
    requires !InTemplate(template, store[k].title)
    ensures exists j ::
      && |template| <= j < |Generated(store, today, yesterday, template, newId)|
      && Generated(store, today, yesterday, template, newId)[j] == store[k].(id := newId(j), date := today)
  {
    var newTasks := FromTemplate(template, today, newId, 0);
    var t := store[k];
    var unfinished := Unfinished(store, yesterday);
    FilterKeeps(store, (t: Task) => t.date == yesterday && !t.completed, k);
    var u :| 0 <= u < |unfinished| && unfinished[u] == t;
    FromTemplateTitles(template, today, newId, 0, t.title);
    var kept := Kept(store, yesterday, newTasks);
    FilterKeeps(unfinished, (t: Task) => !HasTitle(newTasks, t.title), u);
    var m :| 0 <= m < |kept| && kept[m] == t;
    var gen := Generated(store, today, yesterday, template, newId);
    assert gen[|template| + m] == t.(id := newId(|template| + m), date := today);
  }

  /** A title in both the template and yesterday's unfinished tasks appears
      only as the template task: no carried task has a template title. */
  lemma GeneratedNoDuplicateTitles(store: seq<Task>, today: Date, yesterday: Date, template: seq<TemplateEntry>, newId: nat -> string, j: int)
    requires |template| <= j < |Generated(store, today, yesterday, template, newId)|
    ensures !InTemplate(template, Generated(store, today, yesterday, template, newId)[j].title)
  {
    GeneratedCarriedSound(store, today, yesterday, template, newId, j);
  }

  /** A second call on the updated store writes nothing and returns the same
      tasks. */
  lemma GetTodaysTasksIdempotent(store: seq<Task>, notes: seq<Note>, today: Date, yesterday: Date,
                                 template: seq<TemplateEntry>, newId: nat -> string)
    ensures var o := GetTodaysTasks(store, notes, today, yesterday, template, newId);
      var o2 := GetTodaysTasks(o.store, notes, today, yesterday, template, newId);
      o2.store == o.store && Tasks(o2.shown) == Tasks(o.shown)
  {
    var o := GetTodaysTasks(store, notes, today, yesterday, template, newId);
    if DatedOn(o.store, today) == [] && DatedOn(store, today) == [] {
      assert o.store == store;
    }
  }

  /** With an injective id supply none of whose ids is already stored, the
      generated tasks get distinct ids that are new to the store. */
  lemma GetTodaysTasksFreshIds(store: seq<Task>, notes: seq<Note>, today: Date, yesterday: Date,
                               template: seq<TemplateEntry>, newId: nat -> string)
    requires DatedOn(store, today) == []
    requires forall a: nat, b: nat :: a != b ==> newId(a) != newId(b)
    requires forall a: nat, k :: 0 <= k < |store| ==> newId(a) != store[k].id
    ensures var shown := GetTodaysTasks(store, notes, today, yesterday, template, newId).shown;
      && (forall i, j :: 0 <= i < j < |shown| ==> shown[i].task.id != shown[j].task.id)
      && (forall i, k :: 0 <= i < |shown| && 0 <= k < |store| ==> shown[i].task.id != store[k].id)
  {
    var shown := GetTodaysTasks(store, notes, today, yesterday, template, newId).shown;
    GeneratedIds(store, today, yesterday, template, newId);
    assert forall i :: 0 <= i < |shown| ==> shown[i].task.id == newId(i);
    forall i, j | 0 <= i < j < |shown| ensures shown[i].task.id != shown[j].task.id {
      assert newId(i) != newId(j);
    }
    forall i, k | 0 <= i < |shown| && 0 <= k < |store| ensures shown[i].task.id != store[k].id {
      assert newId(i) != store[k].id;
    }
  }

  /** The loader's routine (`loadAll`): when no fetched task is dated today,
      the fetched tasks are followed by one new task per template entry;
      otherwise they are returned unchanged. Nothing is carried over. */
  function LoadAll(fetched: seq<Task>, today: Date, template: seq<TemplateEntry>, newId: nat -> string): (r: seq<Task>)
    ensures |r| >= |fetched| && r[..|fetched|] == fetched
    ensures DatedOn(fetched, today) != [] ==> r == fetched
    ensures DatedOn(r, today) != [] || template == []
  {
    if DatedOn(fetched, today) != [] then fetched
    else
      var newTasks := FromTemplate(template, today, newId, 0);
      FilterConcat(fetched, newTasks, (t: Task) => t.date == today);
      FilterAll(newTasks, (t: Task) => t.date == today);
      fetched + newTasks
  }

  /** The loader appends exactly the template tasks: each new task comes from
      the template entry at its position, with the `i`-th fresh id. */
  lemma LoadAllTemplateOnly(fetched: seq<Task>, today: Date, template: seq<TemplateEntry>, newId: nat -> string)
    requires DatedOn(fetched, today) == []
    ensures var r := LoadAll(fetched, today, template, newId);
      && |r| == |fetched| + |template|
      && forall i :: 0 <= i < |template| ==>
           FromEntry(r[|fetched| + i], template[i], today) && r[|fetched| + i].id == newId(i)
  {
    var added := FromTemplate(template, today, newId, 0);
    var r := LoadAll(fetched, today, template, newId);
    assert r == fetched + added;
    assert forall i :: 0 <= i < |added| ==> r[|fetched| + i] == added[i];
  }

  /** Loading again after generating changes nothing. */
  lemma LoadAllIdempotent(fetched: seq<Task>, today: Date, template: seq<TemplateEntry>, newId: nat -> string)
    ensures var r := LoadAll(fetched, today, template, newId);
      LoadAll(r, today, template, newId) == r
  {
    if DatedOn(fetched, today) == [] && template == [] {
      assert FromTemplate(template, today, newId, 0) == [];
      assert fetched + [] == fetched;
    }
  }

  /** "Sync Template": today's main tasks are deleted, then one new main task
      per template entry is added. Sub-tasks and other days are kept.
      Declining the confirmation changes nothing. */
  function SyncTemplate(tasks: seq<Task>, today: Date, template: seq<TemplateEntry>, newId: nat -> string, confirmed: bool): (r: seq<Task>)
    ensures !confirmed ==> r == tasks
  {
    if !confirmed then tasks
    else
      Filter(tasks, (t: Task) => !(t.date == today && !t.isSubTask))
        + FromTemplate(template, today, newId, 0)
  }

  /** After a sync, today's main tasks are exactly the template tasks, and
      every other task is exactly as before, in the same order. */
  lemma SyncTemplateReplacesTodaysMain(tasks: seq<Task>, today: Date, template: seq<TemplateEntry>, newId: nat -> string)
    ensures var r := SyncTemplate(tasks, today, template, newId, true);
      var main := (t: Task) => t.date == today && !t.isSubTask;
      var other := (t: Task) => !(t.date == today && !t.isSubTask);
      && Filter(r, main) == FromTemplate(template, today, newId, 0)
      && Filter(r, other) == Filter(tasks, other)
  {
    var main := (t: Task) => t.date == today && !t.isSubTask;
    var other := (t: Task) => !(t.date == today && !t.isSubTask);
    var kept := Filter(tasks, other);
    var added := FromTemplate(template, today, newId, 0);
    FilterConcat(kept, added, main);
    FilterConcat(kept, added, other);
    FilterAll(added, main);
    FilterAll(kept, other);
    FilterEmpty(kept, main);
    FilterEmpty(added, other);
  }

  /** `getTodaysTasks()` as the program calls it, with the routine of the
      weekday `today` falls on. On a day with nothing dated yet it always
      produces a routine: the weekday's template tasks first, each dated today. */
  function TodaysTasks(store: seq<Task>, notes: seq<Note>, today: Date, yesterday: Date, newId: nat -> string): (o: Loaded)
    requires Valid(today)
    ensures o == GetTodaysTasks(store, notes, today, yesterday, WeeklyTemplate(CurrentWeekday(today)), newId)
    ensures DatedOn(store, today) == [] ==>
      var template := WeeklyTemplate(CurrentWeekday(today));
      && |template| > 0 && |template| <= |o.shown|
      && forall i :: 0 <= i < |template| ==> FromEntry(o.shown[i].task, template[i], today)
    ensures DatedOn(o.store, today) != []
  {
    TemplateEveryWeekday(today);
    GetTodaysTasks(store, notes, today, yesterday, WeeklyTemplate(CurrentWeekday(today)), newId)
  }

  /** `loadAll` as the workspace hook calls it, with the weekday's routine:
      afterwards something is always dated today. */
  function LoadToday(fetched: seq<Task>, today: Date, newId: nat -> string): (r: seq<Task>)
    requires Valid(today)
    ensures r == LoadAll(fetched, today, WeeklyTemplate(CurrentWeekday(today)), newId)
    ensures DatedOn(r, today) != []
  {
    TemplateEveryWeekday(today);
    LoadAll(fetched, today, WeeklyTemplate(CurrentWeekday(today)), newId)
  }

  /** "Sync Template" as the dashboard runs it, with the routine of the
      weekday `today` falls on: after a confirmed sync, today's main tasks are
      that weekday's template tasks, never none, and every other task is kept
      in order. */
  function SyncTodaysTemplate(tasks: seq<Task>, today: Date, newId: nat -> string, confirmed: bool): (r: seq<Task>)
    requires Valid(today)
    ensures !confirmed ==> r == tasks
    ensures confirmed ==>
      var main := (t: Task) => t.date == today && !t.isSubTask;
      var other := (t: Task) => !(t.date == today && !t.isSubTask);
      && Filter(r, main) == FromTemplate(WeeklyTemplate(CurrentWeekday(today)), today, newId, 0)
      && Filter(r, main) != []
      && Filter(r, other) == Filter(tasks, other)
  {
    var template := WeeklyTemplate(CurrentWeekday(today));
    TemplateEveryWeekday(today);
    SyncTemplateReplacesTodaysMain(tasks, today, template, newId);
    SyncTemplate(tasks, today, template, newId, confirmed)
  }

  /** The store and the loader generate the same routine exactly when there
      is nothing to carry over, that is when each of yesterday's unfinished
      tasks has a template title; otherwise the store's is longer. A day that
      already has tasks is left alone by both. */
  lemma {:induction false} GetTodaysTasksVersusLoadAll(store: seq<Task>, notes: seq<Note>, today: Date, yesterday: Date,
                                                        template: seq<TemplateEntry>, newId: nat -> string)
    ensures var stored := GetTodaysTasks(store, notes, today, yesterday, template, newId).store;
      var loaded := LoadAll(store, today, template, newId);
      && (DatedOn(store, today) != [] ==> stored == loaded)
      && (DatedOn(store, today) == [] ==>
            && |stored| >= |loaded|
            && (stored == loaded <==>
                  forall k :: 0 <= k < |store| && store[k].date == yesterday && !store[k].completed ==>
                                InTemplate(template, store[k].title)))
  {
    if DatedOn(store, today) == [] {
      var stored := GetTodaysTasks(store, notes, today, yesterday, template, newId).store;
      var loaded := LoadAll(store, today, template, newId);
      var newTasks := FromTemplate(template, today, newId, 0);
      var g := Generated(store, today, yesterday, template, newId);
      var carried := CarryOver(Kept(store, yesterday, newTasks), today, newId, |newTasks|);
      assert g == newTasks + carried;
      assert stored == store + g;
      assert loaded == store + newTasks;
      if forall k :: 0 <= k < |store| && store[k].date == yesterday && !store[k].completed ==>
                       InTemplate(template, store[k].title) {
        if |g| > |template| {
          GeneratedCarriedSound(store, today, yesterday, template, newId, |template|);
          assert false;
        }
        assert carried == [];
        assert g == newTasks;
      } else {
        var k :| 0 <= k < |store| && store[k].date == yesterday && !store[k].completed && !InTemplate(template, store[k].title);
        GeneratedCarriedComplete(store, today, yesterday, template, newId, k);
        assert |stored| > |loaded|;
      }
    }
  }
}
