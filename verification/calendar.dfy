/** The month calendar: the grid of day cells, the `year-MM-DD` key of each
    cell, the tasks a cell shows (stored ones, or else the weekday's routine
    as a plan) and the completion ratios. */
module Calendar {
  import opened Wrappers
  import opened Dates
  import opened Seqs
  import opened Text
  import opened Percent
  import opened Models
  import opened Routine

  // ---------------------------------------------------------------- the grid

  /** The month on display; `month` is 1-based. */
  datatype YearMonth = YearMonth(year: int, month: int)

  predicate ValidMonth(ym: YearMonth) { 1 <= ym.month <= 12 }

  /** The "←" button: the first of the previous month. */
  function PrevMonth(ym: YearMonth): (r: YearMonth)
    requires ValidMonth(ym)
    ensures ValidMonth(r)
    ensures r.year * 12 + r.month == ym.year * 12 + ym.month - 1
  {
    if ym.month == 1 then YearMonth(ym.year - 1, 12) else YearMonth(ym.year, ym.month - 1)
  }

  /** The "→" button: the first of the next month. */
  function NextMonth(ym: YearMonth): (r: YearMonth)
    requires ValidMonth(ym)
    ensures ValidMonth(r)
    ensures r.year * 12 + r.month == ym.year * 12 + ym.month + 1
  {
    if ym.month == 12 then YearMonth(ym.year + 1, 1) else YearMonth(ym.year, ym.month + 1)
  }

  /** Going back a month and forward again returns to the same month. */
  lemma PrevNextMonth(ym: YearMonth)
    requires ValidMonth(ym)
    ensures NextMonth(PrevMonth(ym)) == ym && PrevMonth(NextMonth(ym)) == ym
  {
  }

  /** The cells of a month: `firstDay` empty cells, then the days
      `1..daysInMonth` in order. */
  method MonthCells(firstDay: nat, daysInMonth: nat) returns (cells: seq<Option<nat>>)
    ensures |cells| == firstDay + daysInMonth
    ensures forall i :: 0 <= i < firstDay ==> cells[i] == None
    ensures forall i :: firstDay <= i < |cells| ==> cells[i] == Some(i - firstDay + 1)
  {
    cells := [];
    var i := 0;
    while i < firstDay
      invariant 0 <= i <= firstDay && |cells| == i
      invariant forall k :: 0 <= k < i ==> cells[k] == None
    {
      cells := cells + [None];
      i := i + 1;
    }
    var d := 1;
    while d <= daysInMonth
      invariant 1 <= d <= daysInMonth + 1
      invariant |cells| == firstDay + d - 1
      invariant forall k :: 0 <= k < firstDay ==> cells[k] == None
      invariant forall k :: firstDay <= k < |cells| ==> cells[k] == Some(k - firstDay + 1)
    {
      cells := cells + [Some(d)];
      d := d + 1;
    }
  }

  /** The grid of a month, starting on Sunday: every cell holding a day sits
      in that day's weekday column, and every day of the month has a cell. */
  method MonthGrid(ym: YearMonth) returns (cells: seq<Option<nat>>)
    requires ValidMonth(ym)
    ensures |cells| == Weekday(Date(ym.year, ym.month, 1)) + DaysInMonth(ym.year, ym.month)
    ensures forall i :: 0 <= i < |cells| && cells[i].Some? ==>
      && Valid(Date(ym.year, ym.month, cells[i].value))
      && Weekday(Date(ym.year, ym.month, cells[i].value)) == i % 7
    ensures forall i :: 0 <= i < |cells| && cells[i].None? ==> i < 7
    ensures forall d :: 1 <= d <= DaysInMonth(ym.year, ym.month) ==> Some(d) in cells
  {
    var first := Weekday(Date(ym.year, ym.month, 1));
    var days := DaysInMonth(ym.year, ym.month);
    cells := MonthCells(first, days);
    forall i | 0 <= i < |cells| && cells[i].Some?
      ensures Weekday(Date(ym.year, ym.month, cells[i].value)) == i % 7
    {
      ColumnIsWeekday(ym.year, ym.month, i - first + 1);
    }
    forall d | 1 <= d <= days ensures Some(d) in cells {
      assert cells[first + d - 1] == Some(d);
    }
  }

  /** Day `d` of a month falls `d - 1` weekdays after the first. */
  lemma ColumnIsWeekday(y: int, m: int, d: int)
    requires 1 <= m <= 12 && 1 <= d <= DaysInMonth(y, m)
    ensures Weekday(Date(y, m, d)) == (Weekday(Date(y, m, 1)) + d - 1) % 7
  {
    var x := DayNumber(Date(y, m, 1)) + 4;
    assert DayNumber(Date(y, m, d)) + 4 == x + d - 1;
    var q := x / 7;
    var w := x % 7;
    assert x + d - 1 == 7 * q + (w + d - 1);
    var q2 := (w + d - 1) / 7;
    var w2 := (w + d - 1) % 7;
    DivOf(x + d - 1, 7, q + q2, w2);
  }

  // ------------------------------------------------------------ date strings

  /** `String(year)`: a minus sign for years before 0. */
  function YearString(y: int): string
  {
    if y < 0 then "-" + NatToString(-y) else NatToString(y)
  }

  /** The cell key `${year}-${MM}-${DD}`. */
  function DateString(d: Date): (r: string)
    requires Valid(d)
    ensures |r| == |YearString(d.year)| + 6
    ensures r[|r| - 3] == '-' && r[|r| - 6] == '-'
    ensures 1000 <= d.year <= 9999 ==> |r| == 10
  {
    assert 1000 <= d.year <= 9999 ==> |YearString(d.year)| == 4 by {
      if 1000 <= d.year <= 9999 { FourDigitYear(d.year); }
    }
    YearString(d.year) + "-" + Pad2(d.month) + "-" + Pad2(d.day)
  }

  lemma FourDigitYear(y: nat)
    requires 1000 <= y <= 9999
    ensures |NatToString(y)| == 4
  {
    var a := y / 10;
    var b := a / 10;
    var c := b / 10;
    assert |NatToString(c)| == 1;
    assert |NatToString(b)| == 2;
    assert |NatToString(a)| == 3;
  }

  predicate AllDigits(s: string)
  {
    forall i :: 0 <= i < |s| ==> '0' <= s[i] <= '9'
  }

  /** Reads a year written by `YearString`. */
  function ParseYear(s: string): Option<int>
  {
    if |s| > 0 && AllDigits(s) then Some(ParseNat(s))
    else if |s| > 1 && s[0] == '-' && AllDigits(s[1..]) then Some(-(ParseNat(s[1..]) as int))
    else None
  }

  /** Reads a key written by `DateString`: year, month and day between the
      last two dashes. */
  function ParseDateString(s: string): Option<Date>
  {
    if |s| < 7 || s[|s| - 3] != '-' || s[|s| - 6] != '-' then None
    else
      var ms := s[|s| - 5..|s| - 3];
      var ds := s[|s| - 2..];
      if !AllDigits(ms) || !AllDigits(ds) then None
      else match ParseYear(s[..|s| - 6])
        case None => None
        case Some(y) => Some(Date(y, ParseNat(ms), ParseNat(ds)))
  }

  /** A year reads back as itself. */
  lemma ParseYearString(y: int)
    ensures ParseYear(YearString(y)) == Some(y)
  {
    var n := if y < 0 then -y else y;
    ParseNatToString(n);
    ParseYearOfDigits(NatToString(n));
  }

  /** A digit string reads as its value, and with a leading minus as the
      negated value. */
  lemma ParseYearOfDigits(n: string)
    requires |n| >= 1 && AllDigits(n)
    ensures ParseYear(n) == Some(ParseNat(n) as int)
    ensures ParseYear("-" + n) == Some(-(ParseNat(n) as int))
  {
    var m := "-" + n;
    assert m[1..] == n;
    assert !AllDigits(m) by { assert m[0] == '-'; }
  }

  /** A key's parts are read from their positions. */
  lemma ParseDateParts(ys: string, ms: string, ds: string)
    requires |ys| >= 1 && |ms| == 2 && |ds| == 2 && AllDigits(ms) && AllDigits(ds)
    ensures var s := ys + "-" + ms + "-" + ds;
      ParseDateString(s) == (match ParseYear(ys)
        case None => None
        case Some(y) => Some(Date(y, ParseNat(ms), ParseNat(ds))))
  {
    var s := ys + "-" + ms + "-" + ds;
    assert |s| == |ys| + 6 && s[|s| - 3] == '-' && s[|s| - 6] == '-';
    assert s[..|s| - 6] == ys;
    assert s[|s| - 5..|s| - 3] == ms;
    assert s[|s| - 2..] == ds;
  }

  /** Reading a cell key back gives its date. */
  lemma ParseDateStringRoundTrip(d: Date)
    requires Valid(d)
    ensures ParseDateString(DateString(d)) == Some(d)
  {
    ParseYearString(d.year);
    ParseDateParts(YearString(d.year), Pad2(d.month), Pad2(d.day));
  }

  /** Different days have different keys, so a cell is today's exactly when
      its date is today. */
  lemma DateStringInjective(a: Date, b: Date)
    requires Valid(a) && Valid(b)
    ensures DateString(a) == DateString(b) <==> a == b
  {
    ParseDateStringRoundTrip(a);
    ParseDateStringRoundTrip(b);
  }

  // --------------------------------------------------------------- day cells

  /** A task shown in a cell; planned ones come from the routine template. */
  datatype DayItem = DayItem(task: Task, isPlanned: bool)

  /** `planned-${dateStr}-${title}` */
  function PlannedId(d: Date, title: string): string
    requires Valid(d)
  {
    "planned-" + DateString(d) + "-" + title
  }

  /** The planned items of a template on day `d`, in template order. */
  function Planned(template: seq<TemplateEntry>, d: Date): (r: seq<DayItem>)
    requires Valid(d)
    ensures |r| == |template|
    ensures forall i :: 0 <= i < |r| ==>
      && r[i].isPlanned && FromEntry(r[i].task, template[i], d)
      && r[i].task.id == PlannedId(d, template[i].title)
  {
    seq(|template|, i requires 0 <= i < |template| =>
      var e := template[i];
      DayItem(Task(PlannedId(d, e.title), e.title, Some(e.description), e.category, false, d, false, e.priority), true))
  }

  /** What a cell shows: the stored tasks of the day when there are any,
      otherwise the weekday's routine as planned, unfinished items. */
  function DayItemsFrom(tasks: seq<Task>, d: Date, template: seq<TemplateEntry>): (r: seq<DayItem>)
    requires Valid(d)
    ensures DatedOn(tasks, d) != [] ==>
      |r| == |DatedOn(tasks, d)|
      && forall i :: 0 <= i < |r| ==> !r[i].isPlanned && r[i].task == DatedOn(tasks, d)[i]
    ensures DatedOn(tasks, d) == [] ==> r == Planned(template, d)
  {
    var stored := DatedOn(tasks, d);
    if stored != [] then seq(|stored|, i requires 0 <= i < |stored| => DayItem(stored[i], false))
    else Planned(template, d)
  }

  /** A cell as the calendar fills it, with the routine of the weekday `d`
      falls on: every cell shows something, the stored tasks of the day or
      else that weekday's template as a plan. */
  function DayItems(tasks: seq<Task>, d: Date): (r: seq<DayItem>)
    requires Valid(d)
    ensures |r| > 0
    ensures DatedOn(tasks, d) != [] ==>
      |r| == |DatedOn(tasks, d)|
      && forall i :: 0 <= i < |r| ==> !r[i].isPlanned && r[i].task == DatedOn(tasks, d)[i]
    ensures DatedOn(tasks, d) == [] ==> r == Planned(WeeklyTemplate(CurrentWeekday(d)), d)
  {
    TemplateEveryWeekday(d);
    DayItemsFrom(tasks, d, WeeklyTemplate(CurrentWeekday(d)))
  }

  /** A plan previews the routine the loader would create for that day from
      the same template: the same tasks in the same order, apart from the
      ids. */
  lemma PlannedMatchesLoader(tasks: seq<Task>, d: Date, template: seq<TemplateEntry>, newId: nat -> string, i: int)
    requires Valid(d) && DatedOn(tasks, d) == [] && 0 <= i < |template|
    ensures var plan := DayItemsFrom(tasks, d, template);
      var loaded := LoadAll(tasks, d, template, newId);
      && |loaded| == |tasks| + |plan|
      && plan[i].task.(id := "") == loaded[|tasks| + i].(id := "")
  {
    LoadAllTemplateOnly(tasks, d, template, newId);
  }

  /** Planned ids of one day are distinct when the template's titles are. */
  lemma PlannedIdsDistinct(template: seq<TemplateEntry>, d: Date, i: int, j: int)
    requires Valid(d) && 0 <= i < j < |template|
    requires template[i].title != template[j].title
    ensures Planned(template, d)[i].task.id != Planned(template, d)[j].task.id
  {
    var p := "planned-" + DateString(d) + "-";
    var a := Planned(template, d)[i].task.id;
    var b := Planned(template, d)[j].task.id;
    assert a == p + template[i].title;
    assert b == p + template[j].title;
    assert a[|p|..] == template[i].title;
    assert b[|p|..] == template[j].title;
  }

  // ------------------------------------------------------------------ ratios

  /** Finished items, all items and the rounded percentage. */
  datatype Ratio = Ratio(done: nat, total: nat, percentage: nat)

  predicate ItemDone(x: DayItem) { x.task.completed }

  predicate TaskDone(t: Task) { t.completed }

  /** The cell's progress bar and `done/total` label, shown only for a
      non-empty cell. */
  function CellRatio(items: seq<DayItem>): (r: Option<Ratio>)
    ensures r.None? <==> items == []
    ensures r.Some? ==> r.value.done <= r.value.total == |items| && r.value.percentage <= 100
    ensures r.Some? ==> r.value.done == Count(items, ItemDone) && r.value.percentage == RoundPercent(r.value.done, r.value.total)
  {
    if items == [] then None
    else
      var done := Count(items, ItemDone);
      RoundPercentAtMost100(done, |items|);
      Some(Ratio(done, |items|, RoundPercent(done, |items|)))
  }

  /** A day shown as a plan is 0% done: none of its items is finished. */
  lemma PlannedCellRatio(tasks: seq<Task>, d: Date, template: seq<TemplateEntry>)
    requires Valid(d) && DatedOn(tasks, d) == [] && template != []
    ensures CellRatio(DayItemsFrom(tasks, d, template)) == Some(Ratio(0, |template|, 0))
  {
    var items := DayItemsFrom(tasks, d, template);
    assert forall i :: 0 <= i < |items| ==> !ItemDone(items[i]);
    FilterEmpty(items, ItemDone);
    RoundPercentOfNothing(|items|);
  }

  /** The footer: finished tasks over all stored tasks, of every day; the
      rate is 0 when there are none (`NaN || 0`). */
  function Efficiency(tasks: seq<Task>): (r: Ratio)
    ensures r.done <= r.total == |tasks| && r.percentage <= 100
    ensures r.total == 0 ==> r.percentage == 0
    ensures r.done == Count(tasks, TaskDone) && r.percentage == RoundPercent(r.done, r.total)
  {
    var done := Count(tasks, TaskDone);
    RoundPercentAtMost100(done, |tasks|);
    Ratio(done, |tasks|, RoundPercent(done, |tasks|))
  }

  /** Below 200 tasks the footer shows 100% exactly when every stored task is
      finished. */
  lemma EfficiencyFullIff(tasks: seq<Task>)
    requires 0 < |tasks| < 200
    ensures Efficiency(tasks).percentage == 100 <==> All(tasks, TaskDone)
  {
    FilterFull(tasks, TaskDone);
    FilterSubset(tasks, TaskDone);
    RoundPercentFullSmall(Count(tasks, TaskDone), |tasks|);
  }
}
