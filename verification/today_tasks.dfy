/** The "today" screen of the task manager: the open tasks due today,
    bucketed by the hour they are due into morning, evening and night, and
    shown as labelled groups with the empty buckets left out. */
module TodayTasks {
  import opened Basics
  import opened Task
  import Seqs
  import TaskList

  /** The screen's filter: not done, and due on the day `today`. */
  function IsDueToday(today: int): Task -> bool {
    (t: Task) => !t.isCompleted && t.dueDate.Some? && t.dueDate.value.day == today
  }

  function IsDueOn(today: int): Task -> bool {
    (t: Task) => t.dueDate.Some? && t.dueDate.value.day == today
  }

  function TodayTasks(all: seq<Task>, today: int): (r: seq<Task>)
    ensures forall i :: 0 <= i < |r| ==>
      && r[i] in all
      && !r[i].isCompleted && r[i].dueDate.Some? && r[i].dueDate.value.day == today
    ensures forall i ::
      (0 <= i < |all| && !all[i].isCompleted && all[i].dueDate.Some? && all[i].dueDate.value.day == today) ==>
        all[i] in r
    ensures Seqs.IsSubsequence(r, all)
  {
    Seqs.FilterSound(all, IsDueToday(today));
    Seqs.Filter(all, IsDueToday(today))
  }

  /** Today's tasks are the active list narrowed to the tasks due today. */
  lemma TodayTasksAreActiveDueToday(all: seq<Task>, today: int)
    ensures TodayTasks(all, today) == Seqs.Filter(TaskList.ActiveTasks(all), IsDueOn(today))
  {
    Seqs.FilterFilter(all, TaskList.IsActive, IsDueOn(today), IsDueToday(today));
  }

  /** Due between 5 and 11 o'clock. */
  predicate InMorning(t: Task) {
    t.dueDate.Some? && 5 <= t.dueDate.value.Hour() <= 11
  }

  /** Due between 12 and 17 o'clock. */
  predicate InEvening(t: Task) {
    t.dueDate.Some? && 12 <= t.dueDate.value.Hour() <= 17
  }

  /** Due from 18 o'clock or before 5; a missing due date counts as hour 0. */
  predicate InNight(t: Task) {
    var h := if t.dueDate.Some? then t.dueDate.value.Hour() else 0;
    h >= 18 || h < 5
  }

  /** Every task falls in exactly one of the three buckets. */
  lemma ExactlyOneBucket(t: Task)
    ensures InMorning(t) || InEvening(t) || InNight(t)
    ensures !(InMorning(t) && InEvening(t))
    ensures !(InMorning(t) && InNight(t))
    ensures !(InEvening(t) && InNight(t))
  {
  }

  function Morning(todays: seq<Task>): seq<Task> {
    Seqs.Filter(todays, InMorning)
  }

  function Evening(todays: seq<Task>): seq<Task> {
    Seqs.Filter(todays, InEvening)
  }

  function Night(todays: seq<Task>): seq<Task> {
    Seqs.Filter(todays, InNight)
  }

  /** The buckets split today's tasks: together they hold each task as often
      as the list does, and each keeps the list's order. */
  lemma BucketsPartition(todays: seq<Task>)
    ensures multiset(Morning(todays)) + multiset(Evening(todays)) + multiset(Night(todays)) == multiset(todays)
    ensures |Morning(todays)| + |Evening(todays)| + |Night(todays)| == |todays|
    ensures Seqs.IsSubsequence(Morning(todays), todays)
    ensures Seqs.IsSubsequence(Evening(todays), todays)
    ensures Seqs.IsSubsequence(Night(todays), todays)
  {
    forall i | 0 <= i < |todays|
      ensures InMorning(todays[i]) || InEvening(todays[i]) || InNight(todays[i])
      ensures !(InMorning(todays[i]) && InEvening(todays[i]))
      ensures !(InMorning(todays[i]) && InNight(todays[i]))
      ensures !(InEvening(todays[i]) && InNight(todays[i]))
    {
      ExactlyOneBucket(todays[i]);
    }
    Seqs.FilterSplit3(todays, InMorning, InEvening, InNight);
    Seqs.FilterSound(todays, InMorning);
    Seqs.FilterSound(todays, InEvening);
    Seqs.FilterSound(todays, InNight);
  }

  const MorningLabel: string := "Morning (5 AM - 11 AM)"
  const EveningLabel: string := "Evening (12 PM - 5 PM)"
  const NightLabel: string := "Night (6 PM - 4 AM)"

  predicate HasTasks(g: (string, seq<Task>)) {
    |g.1| > 0
  }

  /** The labelled groups in the order morning, evening, night, keeping
      only the groups with tasks. */
  function Groups(todays: seq<Task>): (r: seq<(string, seq<Task>)>)
    ensures forall i :: 0 <= i < |r| ==> |r[i].1| > 0
    ensures |r| <= 3
  {
    Seqs.Filter([(MorningLabel, Morning(todays)), (EveningLabel, Evening(todays)), (NightLabel, Night(todays))], HasTasks)
  }

  function GroupIf(title: string, tasks: seq<Task>): seq<(string, seq<Task>)> {
    if |tasks| > 0 then [(title, tasks)] else []
  }

  /** The groups, spelled out: each non-empty bucket under its label, in
      the fixed order. */
  lemma GroupsInOrder(todays: seq<Task>)
    ensures Groups(todays) ==
      GroupIf(MorningLabel, Morning(todays)) + GroupIf(EveningLabel, Evening(todays)) + GroupIf(NightLabel, Night(todays))
  {
    var m := (MorningLabel, Morning(todays));
    var e := (EveningLabel, Evening(todays));
    var n := (NightLabel, Night(todays));
    assert [m, e, n] == [m] + [e] + [n];
    Seqs.FilterAppend([m] + [e], [n], HasTasks);
    Seqs.FilterAppend([m], [e], HasTasks);
    Seqs.FilterSingleton(m, HasTasks);
    Seqs.FilterSingleton(e, HasTasks);
    Seqs.FilterSingleton(n, HasTasks);
  }

  /** Completing a task shown on this screen (the same copy as on the active
      list) takes exactly that task off today's list. */
  lemma CompleteLeavesTodayList(store: seq<Task>, i: int, today: int, now: DateTime)
    requires TaskList.UniqueIds(store)
    requires 0 <= i < |store| && IsDueToday(today)(store[i])
    ensures TodayTasks(TaskList.Perform(store, TaskList.CompleteAction(store[i], now)), today) ==
      TodayTasks(store[..i], today) + TodayTasks(store[i + 1..], today)
    ensures |TodayTasks(TaskList.Perform(store, TaskList.CompleteAction(store[i], now)), today)| ==
      |TodayTasks(store, today)| - 1
  {
    var done := Complete(store[i], now);
    assert TaskList.Perform(store, TaskList.CompleteAction(store[i], now)) == store[i := done];
    Seqs.FilterReplaceDrops(store, i, done, IsDueToday(today));
  }
}
