/** The statistics screen of the task manager: task counts by state and by
    priority, the completion rate, the tasks completed this week and today,
    and the segment lists behind its two pie charts. */
module Statistics {
  import opened Basics
  import opened Task
  import Seqs
  import CompletedTasks

  predicate IsDone(t: Task) {
    t.isCompleted
  }

  predicate IsOpen(t: Task) {
    !t.isCompleted
  }

  predicate IsHigh(t: Task) {
    t.priority == High
  }

  predicate IsMedium(t: Task) {
    t.priority == Medium
  }

  predicate IsLow(t: Task) {
    t.priority == Low
  }

  function CompletedCount(all: seq<Task>): (n: nat)
    ensures n <= |all|
  {
    Seqs.Count(all, IsDone)
  }

  /** No task is done exactly when the count is zero, and every task is
      done exactly when it is the total. */
  lemma CompletedCountExtremes(all: seq<Task>)
    ensures CompletedCount(all) == 0 <==> forall i :: 0 <= i < |all| ==> !all[i].isCompleted
    ensures CompletedCount(all) == |all| <==> forall i :: 0 <= i < |all| ==> all[i].isCompleted
  {
    Seqs.FilterSound(all, IsDone);
    if forall i :: 0 <= i < |all| ==> all[i].isCompleted {
      Seqs.FilterAll(all, IsDone);
    }
    if forall i :: 0 <= i < |all| ==> !all[i].isCompleted {
      Seqs.FilterNone(all, IsDone);
    }
    if CompletedCount(all) == |all| {
      CountAllMeansEvery(all, IsDone);
    }
  }

  /** A count as large as the list means every element qualifies. */
  lemma {:induction false} CountAllMeansEvery<T>(s: seq<T>, p: T -> bool)
    requires Seqs.Count(s, p) == |s|
    ensures forall i :: 0 <= i < |s| ==> p(s[i])
    decreases |s|
  {
    if |s| > 0 {
      assert p(s[0]);
      CountAllMeansEvery(s[1..], p);
      forall i | 1 <= i < |s|
        ensures p(s[i])
      {
        assert s[i] == s[1..][i - 1];
      }
    }
  }

  /** The source computes the open tasks as the total minus the done ones. */
  function IncompleteCount(all: seq<Task>): int {
    |all| - CompletedCount(all)
  }

  /** The done and open counts add up to the total: the open count is the
      number of tasks not done. */
  lemma CountsAddUp(all: seq<Task>)
    ensures IncompleteCount(all) == Seqs.Count(all, IsOpen)
    ensures CompletedCount(all) + IncompleteCount(all) == |all|
    ensures IncompleteCount(all) >= 0
  {
    Seqs.FilterSplit(all, IsDone, IsOpen);
  }

  function HighCount(all: seq<Task>): nat {
    Seqs.Count(all, IsHigh)
  }

  function MediumCount(all: seq<Task>): nat {
    Seqs.Count(all, IsMedium)
  }

  function LowCount(all: seq<Task>): nat {
    Seqs.Count(all, IsLow)
  }

  /** Every task has one of the three priorities. */
  lemma PriorityCountsAddUp(all: seq<Task>)
    ensures HighCount(all) + MediumCount(all) + LowCount(all) == |all|
  {
    Seqs.FilterSplit3(all, IsHigh, IsMedium, IsLow);
  }

  lemma MulLeft(a: int, b: int, t: int)
    requires a <= b && t >= 0
    ensures a * t <= b * t
  {
    assert b * t - a * t == (b - a) * t;
  }

  /** The percentage `done` of `total`, rounded down. */
  function Percent(done: nat, total: nat): (r: int)
    requires done <= total && total > 0
    ensures 0 <= r <= 100
    ensures r * total <= done * 100 < (r + 1) * total
    ensures done == 0 ==> r == 0
    ensures done == total ==> r == 100
  {
    var n := done * 100;
    var r := n / total;
    assert n == r * total + n % total;
    assert (r + 1) * total == r * total + total;
    assert n <= 100 * total by {
      MulLeft(done, total, 100);
    }
    assert r <= 100 by {
      if r > 100 {
        MulLeft(101, r, total);
      }
    }
    assert r >= 0 by {
      if r < 0 {
        MulLeft(r + 1, 0, total);
      }
    }
    assert done == total ==> r >= 100 by {
      if done == total && r < 100 {
        MulLeft(r + 1, 100, total);
      }
    }
    assert done == 0 ==> r <= 0 by {
      if done == 0 && r > 0 {
        MulLeft(1, r, total);
      }
    }
    r
  }

  /** The completion percentage; 0 with no tasks. */
  function CompletionRate(all: seq<Task>): (r: int)
    ensures 0 <= r <= 100
    ensures CompletedCount(all) == 0 ==> r == 0
    ensures |all| > 0 && CompletedCount(all) == |all| ==> r == 100
    ensures |all| > 0 ==> r * |all| <= CompletedCount(all) * 100 < (r + 1) * |all|
  {
    if |all| > 0 then Percent(CompletedCount(all), |all|) else 0
  }

  /** Done, and completed strictly after `since`. */
  function CompletedAfter(since: DateTime): Task -> bool {
    (t: Task) => t.isCompleted && t.completedDate.Some? && since.Before(t.completedDate.value)
  }

  /** Done, and completed on the day `today`. */
  function CompletedOn(today: int): Task -> bool {
    (t: Task) => t.isCompleted && t.completedDate.Some? && t.completedDate.value.day == today
  }

  /** The tasks completed in the seven days before `now`. */
  function ThisWeekCount(all: seq<Task>, now: DateTime): (n: nat)
    ensures n <= CompletedCount(all)
  {
    Seqs.CountMonotone(all, CompletedAfter(now.MinusDays(7)), IsDone);
    Seqs.Count(all, CompletedAfter(now.MinusDays(7)))
  }

  /** The weekly count, task by task: nothing for no tasks, and one more
      exactly for a done task whose completion date is strictly after the
      moment seven days before `now`; an undated task never counts. */
  lemma {:induction false} ThisWeekCountStep(all: seq<Task>, t: Task, now: DateTime)
    ensures ThisWeekCount([], now) == 0
    ensures ThisWeekCount(all + [t], now) == ThisWeekCount(all, now) +
      (if t.isCompleted && t.completedDate.Some? && now.MinusDays(7).Before(t.completedDate.value) then 1 else 0)
    ensures t.completedDate.None? ==> ThisWeekCount(all + [t], now) == ThisWeekCount(all, now)
  {
    var p := CompletedAfter(now.MinusDays(7));
    Seqs.FilterAppend(all, [t], p);
    Seqs.FilterSingleton(t, p);
  }

  function TodayCount(all: seq<Task>, today: int): (n: nat)
    ensures n <= CompletedCount(all)
  {
    Seqs.CountMonotone(all, CompletedOn(today), IsDone);
    Seqs.Count(all, CompletedOn(today))
  }

  /** Everything completed today is also completed this week. */
  lemma TodayWithinWeek(all: seq<Task>, now: DateTime)
    ensures TodayCount(all, now.day) <= ThisWeekCount(all, now)
  {
    Seqs.CountMonotone(all, CompletedOn(now.day), CompletedAfter(now.MinusDays(7)));
  }

  /** The "today" count is the size of the completed screen's "Today"
      group. */
  lemma TodayCountIsTodayGroup(all: seq<Task>, cal: CompletedTasks.Calendar, yearOf: int -> int)
    ensures TodayCount(all, cal.today) ==
      |Seqs.Filter(CompletedTasks.CompletedTasks(all),
                   CompletedTasks.HasKey(CompletedTasks.PeriodOf(cal, yearOf), CompletedTasks.TodayLabel))|
  {
    var p := CompletedTasks.HasKey(CompletedTasks.PeriodOf(cal, yearOf), CompletedTasks.TodayLabel);
    forall i | 0 <= i < |all|
      ensures CompletedOn(cal.today)(all[i]) == (CompletedTasks.IsDone(all[i]) && p(all[i]))
    {
      var name := CompletedTasks.Period(all[i], cal, yearOf);
    }
    Seqs.FilterFilter(all, CompletedTasks.IsDone, p, CompletedOn(cal.today));
  }

  /** A pie-chart segment; its colour is not modelled. */
  datatype Segment = Segment(name: string, value: int)

  function SumValues(segs: seq<Segment>): int
    decreases |segs|
  {
    if |segs| == 0 then 0 else segs[0].value + SumValues(segs[1..])
  }

  const NoTasks: seq<Segment> := [Segment("No Tasks", 1)]

  /** The completion chart: done and open tasks, or a single "No Tasks"
      segment when there are none. */
  function CompletionData(all: seq<Task>): (r: seq<Segment>)
    ensures |all| == 0 ==> r == NoTasks
    ensures |all| > 0 ==> |r| == 2 && r[0].name == "Completed" && r[1].name == "Incomplete"
    ensures |all| > 0 ==> r[0].value == Seqs.Count(all, IsDone) && r[1].value == Seqs.Count(all, IsOpen)
    ensures |all| > 0 ==> SumValues(r) == |all|
  {
    CountsAddUp(all);
    if |all| > 0 then
      var r := [Segment("Completed", CompletedCount(all)), Segment("Incomplete", IncompleteCount(all))];
      assert SumValues(r[1..]) == r[1].value + SumValues(r[1..][1..]);
      assert r[1..][1..] == [];
      r
    else NoTasks
  }

  predicate HasValue(s: Segment) {
    s.value > 0
  }

  /** The priority chart: High, Medium and Low with the empty ones left
      out, or a single "No Tasks" segment when there are no tasks. */
  function PriorityData(all: seq<Task>): seq<Segment> {
    if |all| > 0 then
      Seqs.Filter([Segment("High", HighCount(all)), Segment("Medium", MediumCount(all)),
                   Segment("Low", LowCount(all))], HasValue)
    else NoTasks
  }

  function SegmentIf(name: string, value: int): seq<Segment> {
    if value > 0 then [Segment(name, value)] else []
  }

  lemma {:induction false} SumValuesAppend(a: seq<Segment>, b: seq<Segment>)
    ensures SumValues(a + b) == SumValues(a) + SumValues(b)
    decreases |a|
  {
    if |a| == 0 {
      assert a + b == b;
    } else {
      assert (a + b)[0] == a[0];
      assert (a + b)[1..] == a[1..] + b;
      SumValuesAppend(a[1..], b);
    }
  }

  /** The priority chart keeps the order High, Medium, Low, shows only the
      priorities some task has, and its values add up to the number of
      tasks. */
  lemma PriorityDataCorrect(all: seq<Task>)
    requires |all| > 0
    ensures PriorityData(all) ==
      SegmentIf("High", HighCount(all)) + SegmentIf("Medium", MediumCount(all)) + SegmentIf("Low", LowCount(all))
    ensures forall i :: 0 <= i < |PriorityData(all)| ==> PriorityData(all)[i].value > 0
    ensures SumValues(PriorityData(all)) == |all|
  {
    var h := Segment("High", HighCount(all));
    var m := Segment("Medium", MediumCount(all));
    var l := Segment("Low", LowCount(all));
    assert [h, m, l] == [h] + [m] + [l];
    Seqs.FilterAppend([h] + [m], [l], HasValue);
    Seqs.FilterAppend([h], [m], HasValue);
    Seqs.FilterSingleton(h, HasValue);
    Seqs.FilterSingleton(m, HasValue);
    Seqs.FilterSingleton(l, HasValue);
    var a, b, c := SegmentIf("High", HighCount(all)), SegmentIf("Medium", MediumCount(all)), SegmentIf("Low", LowCount(all));
    SumValuesAppend(a + b, c);
    SumValuesAppend(a, b);
    assert SumValues(a) == HighCount(all) by {
      if |a| > 0 { assert a[1..] == []; }
    }
    assert SumValues(b) == MediumCount(all) by {
      if |b| > 0 { assert b[1..] == []; }
    }
    assert SumValues(c) == LowCount(all) by {
      if |c| > 0 { assert c[1..] == []; }
    }
    PriorityCountsAddUp(all);
  }
}
