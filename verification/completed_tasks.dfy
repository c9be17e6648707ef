/** The "completed" screen of the task manager: the done tasks grouped by the
    period they were completed in (today, yesterday, this week, this month,
    this year, a year number, or unknown), with the groups ordered by a fixed
    sort key through a sorted map. */
module CompletedTasks {
  import opened Basics
  import opened Task
  import Decimal
  import Seqs

  /** The calendar facts of the current day: `today` as a day ordinal and
      its day of the week (1 for Monday to 7 for Sunday), of the month and of
      the year. The period boundaries are derived from them as the screen
      does. */
  datatype Calendar = Calendar(today: int, dayOfWeek: int, dayOfMonth: int, dayOfYear: int) {
    function Yesterday(): int {
      today - 1
    }

    /** The Monday of the current week. */
    function StartOfWeek(): int {
      today - (dayOfWeek - 1)
    }

    function StartOfMonth(): int {
      today - (dayOfMonth - 1)
    }

    function StartOfYear(): int {
      today - (dayOfYear - 1)
    }
  }

  /** The range of years `LocalDate` supports. */
  const MinYear: int := -999_999_999
  const MaxYear: int := 999_999_999

  const TodayLabel: string := "Today"
  const YesterdayLabel: string := "Yesterday"
  const WeekLabel: string := "This Week"
  const MonthLabel: string := "This Month"
  const YearLabel: string := "This Year"
  const UnknownLabel: string := "Unknown"

  predicate IsDone(t: Task) {
    t.isCompleted
  }

  /** The tasks the screen groups: the done ones, in stored order. */
  function CompletedTasks(all: seq<Task>): (r: seq<Task>)
    ensures forall i :: 0 <= i < |r| ==> r[i] in all && r[i].isCompleted
    ensures forall i :: 0 <= i < |all| && all[i].isCompleted ==> all[i] in r
    ensures Seqs.IsSubsequence(r, all)
  {
    Seqs.FilterSound(all, IsDone);
    Seqs.Filter(all, IsDone)
  }

  /** The period a done task belongs to: a first-match cascade over the
      completion day with strict "after" comparisons at the week, month and
      year boundaries; `yearOf` gives the calendar year of a day. */
  function Period(t: Task, cal: Calendar, yearOf: int -> int): (name: string)
    ensures t.completedDate.None? <==> name == UnknownLabel
    ensures name == TodayLabel <==> t.completedDate.Some? && t.completedDate.value.day == cal.today
    ensures name == YesterdayLabel <==> t.completedDate.Some? && t.completedDate.value.day == cal.Yesterday()
    ensures name == WeekLabel <==>
      && t.completedDate.Some?
      && t.completedDate.value.day !in {cal.today, cal.Yesterday()}
      && t.completedDate.value.day > cal.StartOfWeek()
    ensures name == MonthLabel <==>
      && t.completedDate.Some?
      && t.completedDate.value.day !in {cal.today, cal.Yesterday()}
      && cal.StartOfMonth() < t.completedDate.value.day <= cal.StartOfWeek()
    ensures name == YearLabel <==>
      && t.completedDate.Some?
      && t.completedDate.value.day !in {cal.today, cal.Yesterday()}
      && t.completedDate.value.day <= cal.StartOfWeek()
      && cal.StartOfYear() < t.completedDate.value.day <= cal.StartOfMonth()
    ensures name !in {TodayLabel, YesterdayLabel, WeekLabel, MonthLabel, YearLabel, UnknownLabel} <==>
      && t.completedDate.Some?
      && t.completedDate.value.day !in {cal.today, cal.Yesterday()}
      && t.completedDate.value.day <= cal.StartOfWeek()
      && t.completedDate.value.day <= cal.StartOfMonth()
      && t.completedDate.value.day <= cal.StartOfYear()
    ensures name !in {TodayLabel, YesterdayLabel, WeekLabel, MonthLabel, YearLabel, UnknownLabel} ==>
      name == Decimal.IntToString(yearOf(t.completedDate.value.day))
  {
    match t.completedDate
    case None => UnknownLabel
    case Some(at) =>
      var d := at.day;
      if d == cal.today then TodayLabel
      else if d == cal.Yesterday() then YesterdayLabel
      else if d > cal.StartOfWeek() then WeekLabel
      else if d > cal.StartOfMonth() then MonthLabel
      else if d > cal.StartOfYear() then YearLabel
      else
        var s := Decimal.IntToString(yearOf(d));
        assert s[0] == '-' || Decimal.IsDigit(s[0]);
        s
  }

  /** A completion on the first day of the week, month or year is not
      "after" it: it falls through to the next case of the cascade. */
  lemma BoundariesAreStrict(t: Task, cal: Calendar, yearOf: int -> int)
    requires t.completedDate.Some? && t.completedDate.value.day !in {cal.today, cal.Yesterday()}
    ensures t.completedDate.value.day == cal.StartOfWeek() ==> Period(t, cal, yearOf) != WeekLabel
    ensures t.completedDate.value.day == cal.StartOfMonth() <= cal.StartOfWeek() ==>
      Period(t, cal, yearOf) !in {WeekLabel, MonthLabel}
    ensures t.completedDate.value.day == cal.StartOfYear() <= cal.StartOfMonth() <= cal.StartOfWeek() ==>
      Period(t, cal, yearOf) == Decimal.IntToString(yearOf(cal.StartOfYear()))
  {
  }

  /** On a Monday the week starts today, so nothing earlier is "This Week";
      on the first of the month nothing earlier is "This Month". */
  lemma FirstDays(t: Task, cal: Calendar, yearOf: int -> int)
    requires t.completedDate.Some? && t.completedDate.value.day < cal.today
    ensures cal.dayOfWeek == 1 ==> Period(t, cal, yearOf) != WeekLabel
    ensures cal.dayOfMonth == 1 && cal.dayOfWeek == 1 ==> Period(t, cal, yearOf) !in {WeekLabel, MonthLabel}
  {
  }

  /** The comparator's selector: the five recent periods rank 1 to 5, any
      other label ranks 1000 plus its value as an `Int`, 999 when it has
      none, computed in 32-bit arithmetic. */
  function SortKey(name: string): int {
    if name == TodayLabel then 1
    else if name == YesterdayLabel then 2
    else if name == WeekLabel then 3
    else if name == MonthLabel then 4
    else if name == YearLabel then 5
    else Wrap32(1000 + Decimal.ParseInt(name).GetOr(999))
  }

  /** A year label's rank. */
  lemma YearSortKey(y: int)
    requires MinYear <= y <= MaxYear
    ensures SortKey(Decimal.IntToString(y)) == 1000 + y
  {
    var s := Decimal.IntToString(y);
    assert s[0] == '-' || Decimal.IsDigit(s[0]);
    Decimal.IntToStringRoundTrip(y);
  }

  /** The groups are ordered Today, Yesterday, This Week, This Month, This
      Year, then Unknown, then the years from year 1000 on in ascending
      order. */
  lemma SortKeyOrder(y: int, z: int)
    requires 1000 <= y < z <= MaxYear
    ensures SortKey(TodayLabel) < SortKey(YesterdayLabel) < SortKey(WeekLabel)
    ensures SortKey(WeekLabel) < SortKey(MonthLabel) < SortKey(YearLabel) < SortKey(UnknownLabel)
    ensures SortKey(UnknownLabel) == 1999
    ensures SortKey(UnknownLabel) < SortKey(Decimal.IntToString(y)) < SortKey(Decimal.IntToString(z))
  {
    Decimal.LetterTextDoesNotParse(UnknownLabel);
    YearSortKey(y);
    YearSortKey(z);
  }

  /** The year of every dated done task lies between 1000 and the largest
      `LocalDate` year. */
  predicate YearsFromThousand(all: seq<Task>, yearOf: int -> int) {
    forall i :: 0 <= i < |all| && all[i].isCompleted && all[i].completedDate.Some? ==>
      1000 <= yearOf(all[i].completedDate.value.day) <= MaxYear
  }

  /** For years from 1000 on, two periods with the same rank are the same
      period, so the sorted map merges no groups. */
  lemma SortKeyInjective(t1: Task, t2: Task, cal: Calendar, yearOf: int -> int)
    requires t1.completedDate.Some? ==> 1000 <= yearOf(t1.completedDate.value.day) <= MaxYear
    requires t2.completedDate.Some? ==> 1000 <= yearOf(t2.completedDate.value.day) <= MaxYear
    requires SortKey(Period(t1, cal, yearOf)) == SortKey(Period(t2, cal, yearOf))
    ensures Period(t1, cal, yearOf) == Period(t2, cal, yearOf)
  {
    Decimal.LetterTextDoesNotParse(UnknownLabel);
    var a, b := Period(t1, cal, yearOf), Period(t2, cal, yearOf);
    var fixed := {TodayLabel, YesterdayLabel, WeekLabel, MonthLabel, YearLabel, UnknownLabel};
    if a !in fixed {
      YearSortKey(yearOf(t1.completedDate.value.day));
    }
    if b !in fixed {
      YearSortKey(yearOf(t2.completedDate.value.day));
    }
  }

  // ---------------------------------------------------------------------
  // Kotlin's `groupBy`: groups in the order their key first appears, each
  // holding its elements in list order.

  type Group = (string, seq<Task>)

  /** Position of the group called `name`, or `|gs|` when there is none. */
  function KeyIndex(gs: seq<Group>, name: string): (i: nat)
    ensures i <= |gs|
    ensures i < |gs| ==> gs[i].0 == name
    ensures forall j :: 0 <= j < i ==> gs[j].0 != name
    decreases |gs|
  {
    if |gs| == 0 then 0
    else if gs[0].0 == name then 0
    else 1 + KeyIndex(gs[1..], name)
  }

  /** Adds `t` to the group `name`, opening the group at the end when it is
      new. */
  function AddToGroup(gs: seq<Group>, name: string, t: Task): (r: seq<Group>)
    ensures KeyIndex(gs, name) == |gs| ==> r == gs + [(name, [t])]
    ensures KeyIndex(gs, name) < |gs| ==> r == gs[KeyIndex(gs, name) := (name, gs[KeyIndex(gs, name)].1 + [t])]
  {
    var i := KeyIndex(gs, name);
    if i == |gs| then gs + [(name, [t])] else gs[i := (name, gs[i].1 + [t])]
  }

  function GroupBy(ts: seq<Task>, key: Task -> string): seq<Group>
    decreases |ts|
  {
    if |ts| == 0 then []
    else AddToGroup(GroupBy(ts[..|ts| - 1], key), key(ts[|ts| - 1]), ts[|ts| - 1])
  }

  function HasKey(key: Task -> string, name: string): Task -> bool {
    (t: Task) => key(t) == name
  }

  predicate DistinctNames(gs: seq<Group>) {
    forall i, j :: 0 <= i < j < |gs| ==> gs[i].0 != gs[j].0
  }

  /** What adding one element does to the groups: earlier names stay in
      place, the element's group exists afterwards, distinct names stay
      distinct, and only that group changes, by gaining the element at its
      end. */
  lemma AddToGroupFacts(gs: seq<Group>, name: string, t: Task)
    requires DistinctNames(gs)
    ensures var r := AddToGroup(gs, name, t);
      && |gs| <= |r|
      && (forall i :: 0 <= i < |gs| ==> r[i].0 == gs[i].0)
      && KeyIndex(r, name) < |r|
      && DistinctNames(r)
      && (forall i :: 0 <= i < |r| && r[i].0 != name ==> i < |gs| && r[i] == gs[i])
      && (forall i :: 0 <= i < |r| && r[i].0 == name ==>
            r[i].1 == (if KeyIndex(gs, name) < |gs| then gs[KeyIndex(gs, name)].1 else []) + [t])
  {
    var r := AddToGroup(gs, name, t);
    var i := KeyIndex(gs, name);
    assert r[i].0 == name;
  }

  /** Every element's key names a group, and the names are distinct. */
  lemma {:induction false} GroupByNames(ts: seq<Task>, key: Task -> string)
    ensures DistinctNames(GroupBy(ts, key))
    ensures forall j :: 0 <= j < |ts| ==> KeyIndex(GroupBy(ts, key), key(ts[j])) < |GroupBy(ts, key)|
    decreases |ts|
  {
    if |ts| > 0 {
      var prefix, x := ts[..|ts| - 1], ts[|ts| - 1];
      GroupByNames(prefix, key);
      var old_ := GroupBy(prefix, key);
      var gs := GroupBy(ts, key);
      AddToGroupFacts(old_, key(x), x);
      forall j | 0 <= j < |ts|
        ensures KeyIndex(gs, key(ts[j])) < |gs|
      {
        if j < |prefix| {
          assert ts[j] == prefix[j];
          var m := KeyIndex(old_, key(prefix[j]));
          assert gs[m].0 == key(ts[j]);
        }
      }
    }
  }

  /** One group after adding the last element `x`: it still holds exactly
      the elements with its key. */
  lemma GroupStep(prefix: seq<Task>, x: Task, key: Task -> string, i: int)
    requires DistinctNames(GroupBy(prefix, key))
    requires forall j :: 0 <= j < |prefix| ==> KeyIndex(GroupBy(prefix, key), key(prefix[j])) < |GroupBy(prefix, key)|
    requires forall j :: 0 <= j < |GroupBy(prefix, key)| ==>
      && GroupBy(prefix, key)[j].1 == Seqs.Filter(prefix, HasKey(key, GroupBy(prefix, key)[j].0))
      && |GroupBy(prefix, key)[j].1| > 0
    requires 0 <= i < |AddToGroup(GroupBy(prefix, key), key(x), x)|
    ensures var g := AddToGroup(GroupBy(prefix, key), key(x), x)[i];
      g.1 == Seqs.Filter(prefix + [x], HasKey(key, g.0)) && |g.1| > 0
  {
    var old_ := GroupBy(prefix, key);
    var gs := AddToGroup(old_, key(x), x);
    AddToGroupFacts(old_, key(x), x);
    var p := HasKey(key, gs[i].0);
    Seqs.FilterAppend(prefix, [x], p);
    Seqs.FilterSingleton(x, p);
    if gs[i].0 == key(x) && KeyIndex(old_, key(x)) == |old_| {
      Seqs.FilterNone(prefix, p);
    } else if gs[i].0 != key(x) {
      assert gs[i] == old_[i];
    }
  }

  /** `groupBy` is correct: the names are distinct, each group holds exactly
      the elements with its key in list order and is not empty, and every
      element's key names a group. */
  lemma {:induction false} GroupByCorrect(ts: seq<Task>, key: Task -> string)
    ensures DistinctNames(GroupBy(ts, key))
    ensures forall i :: 0 <= i < |GroupBy(ts, key)| ==>
      && GroupBy(ts, key)[i].1 == Seqs.Filter(ts, HasKey(key, GroupBy(ts, key)[i].0))
      && |GroupBy(ts, key)[i].1| > 0
    ensures forall j :: 0 <= j < |ts| ==> KeyIndex(GroupBy(ts, key), key(ts[j])) < |GroupBy(ts, key)|
    decreases |ts|
  {
    GroupByNames(ts, key);
    if |ts| > 0 {
      var prefix, x := ts[..|ts| - 1], ts[|ts| - 1];
      assert ts == prefix + [x];
      GroupByCorrect(prefix, key);
      forall i | 0 <= i < |GroupBy(ts, key)|
        ensures GroupBy(ts, key)[i].1 == Seqs.Filter(ts, HasKey(key, GroupBy(ts, key)[i].0))
        ensures |GroupBy(ts, key)[i].1| > 0
      {
        GroupStep(prefix, x, key, i);
      }
    }
  }

  // ---------------------------------------------------------------------
  // `toSortedMap(compareBy(rank))`: a tree map ordered by `rank`. A key
  // whose rank equals that of a key already present keeps the first key and
  // takes the new value.

  predicate SortedBy(m: seq<Group>, rank: string -> int) {
    forall i, j :: 0 <= i < j < |m| ==> rank(m[i].0) < rank(m[j].0)
  }

  /** `TreeMap.put`. */
  function Put(m: seq<Group>, name: string, v: seq<Task>, rank: string -> int): (r: seq<Group>)
    ensures |m| <= |r| <= |m| + 1
    decreases |m|
  {
    if |m| == 0 then [(name, v)]
    else if rank(name) < rank(m[0].0) then [(name, v)] + m
    else if rank(name) == rank(m[0].0) then [(m[0].0, v)] + m[1..]
    else [m[0]] + Put(m[1..], name, v, rank)
  }

  /** Every entry after a put is an old entry or has the new key's rank. */
  lemma {:induction false} PutEntries(m: seq<Group>, name: string, v: seq<Task>, rank: string -> int)
    ensures forall k :: 0 <= k < |Put(m, name, v, rank)| ==>
      Put(m, name, v, rank)[k] in m || rank(Put(m, name, v, rank)[k].0) == rank(name)
    decreases |m|
  {
    if |m| > 0 && rank(name) > rank(m[0].0) {
      PutEntries(m[1..], name, v, rank);
      var r := Put(m, name, v, rank);
      forall k | 0 <= k < |r|
        ensures r[k] in m || rank(r[k].0) == rank(name)
      {
        if k > 0 {
          assert r[k] == Put(m[1..], name, v, rank)[k - 1];
        }
      }
    }
  }

  /** A put keeps the map ordered. */
  lemma {:induction false} PutSorted(m: seq<Group>, name: string, v: seq<Task>, rank: string -> int)
    requires SortedBy(m, rank)
    ensures SortedBy(Put(m, name, v, rank), rank)
    decreases |m|
  {
    if |m| > 0 && rank(name) > rank(m[0].0) {
      var rest := Put(m[1..], name, v, rank);
      PutSorted(m[1..], name, v, rank);
      PutEntries(m[1..], name, v, rank);
      forall k | 0 <= k < |rest|
        ensures rank(m[0].0) < rank(rest[k].0)
      {
        if rest[k] in m[1..] {
          var j :| 0 <= j < |m[1..]| && m[1..][j] == rest[k];
          assert m[j + 1] == rest[k];
        }
      }
    }
  }

  /** A key of a new rank adds exactly one entry. */
  lemma {:induction false} PutFresh(m: seq<Group>, name: string, v: seq<Task>, rank: string -> int)
    requires forall i :: 0 <= i < |m| ==> rank(m[i].0) != rank(name)
    ensures multiset(Put(m, name, v, rank)) == multiset(m) + multiset{(name, v)}
    decreases |m|
  {
    if |m| > 0 {
      assert m == [m[0]] + m[1..];
      if rank(name) > rank(m[0].0) {
        PutFresh(m[1..], name, v, rank);
      }
    }
  }

  /** A key whose rank is already present keeps the present key and
      replaces its value. */
  lemma {:induction false} PutCollision(m: seq<Group>, name: string, v: seq<Task>, rank: string -> int, i: int)
    requires SortedBy(m, rank)
    requires 0 <= i < |m| && rank(m[i].0) == rank(name)
    ensures Put(m, name, v, rank) == m[i := (m[i].0, v)]
    decreases |m|
  {
    if i > 0 {
      assert rank(m[0].0) < rank(name);
      PutCollision(m[1..], name, v, rank, i - 1);
      assert m[i := (m[i].0, v)] == [m[0]] + m[1..][i - 1 := (m[i].0, v)];
    }
  }

  /** `toSortedMap`: the entries put one by one in list order. */
  function ToSortedMap(gs: seq<Group>, rank: string -> int): (r: seq<Group>)
    ensures |r| <= |gs|
    decreases |gs|
  {
    if |gs| == 0 then []
    else
      var last := gs[|gs| - 1];
      Put(ToSortedMap(gs[..|gs| - 1], rank), last.0, last.1, rank)
  }

  predicate DistinctRanks(gs: seq<Group>, rank: string -> int) {
    forall i, j :: 0 <= i < j < |gs| ==> rank(gs[i].0) != rank(gs[j].0)
  }

  /** The sorted map is strictly ordered by rank; when no two groups share a
      rank it holds exactly the groups it was built from. */
  lemma {:induction false} ToSortedMapCorrect(gs: seq<Group>, rank: string -> int)
    ensures SortedBy(ToSortedMap(gs, rank), rank)
    ensures DistinctRanks(gs, rank) ==> multiset(ToSortedMap(gs, rank)) == multiset(gs)
    decreases |gs|
  {
    if |gs| > 0 {
      var prefix, last := gs[..|gs| - 1], gs[|gs| - 1];
      assert gs == prefix + [last];
      ToSortedMapCorrect(prefix, rank);
      var m := ToSortedMap(prefix, rank);
      PutSorted(m, last.0, last.1, rank);
      if DistinctRanks(gs, rank) {
        assert DistinctRanks(prefix, rank);
        forall i | 0 <= i < |m|
          ensures rank(m[i].0) != rank(last.0)
        {
          assert m[i] in multiset(prefix);
          var j :| 0 <= j < |prefix| && prefix[j] == m[i];
          assert gs[j] == m[i];
        }
        PutFresh(m, last.0, last.1, rank);
      }
    }
  }

  /** A map ordered by rank that holds the same entries as `gs` has distinct
      names, holds only entries of `gs`, and finds every name of `gs`. */
  lemma SortedSameEntries(gs: seq<Group>, m: seq<Group>, rank: string -> int)
    requires SortedBy(m, rank) && multiset(m) == multiset(gs)
    ensures DistinctNames(m)
    ensures forall i :: 0 <= i < |m| ==> m[i] in gs
    ensures forall k :: 0 <= k < |gs| ==> KeyIndex(m, gs[k].0) < |m|
  {
    forall i | 0 <= i < |m|
      ensures m[i] in gs
    {
      assert m[i] in multiset(gs);
    }
    forall k | 0 <= k < |gs|
      ensures KeyIndex(m, gs[k].0) < |m|
    {
      assert gs[k] in multiset(m);
      var i :| 0 <= i < |m| && m[i] == gs[k];
    }
  }

  // ---------------------------------------------------------------------
  // The screen.

  function PeriodOf(cal: Calendar, yearOf: int -> int): Task -> string {
    (t: Task) => Period(t, cal, yearOf)
  }

  /** The groups the screen lists, in order. */
  function Grouped(all: seq<Task>, cal: Calendar, yearOf: int -> int): seq<Group> {
    ToSortedMap(GroupBy(CompletedTasks(all), PeriodOf(cal, yearOf)), SortKey)
  }

  /** Every group is named after the key of one of its elements. */
  lemma GroupNameWitness(ts: seq<Task>, key: Task -> string, i: int) returns (j: int)
    requires 0 <= i < |GroupBy(ts, key)|
    ensures 0 <= j < |ts| && key(ts[j]) == GroupBy(ts, key)[i].0
  {
    GroupByCorrect(ts, key);
    var g := GroupBy(ts, key)[i];
    var p := HasKey(key, g.0);
    Seqs.FilterSound(ts, p);
    assert g.1[0] in ts;
    j :| 0 <= j < |ts| && ts[j] == g.1[0];
    assert p(g.1[0]);
  }

  /** With every year from 1000 on, the period groups have distinct ranks. */
  lemma PeriodRanksDistinct(all: seq<Task>, cal: Calendar, yearOf: int -> int)
    requires YearsFromThousand(all, yearOf)
    ensures DistinctRanks(GroupBy(CompletedTasks(all), PeriodOf(cal, yearOf)), SortKey)
  {
    var done := CompletedTasks(all);
    var key := PeriodOf(cal, yearOf);
    var gs := GroupBy(done, key);
    GroupByCorrect(done, key);
    forall i, j | 0 <= i < j < |gs|
      ensures SortKey(gs[i].0) != SortKey(gs[j].0)
    {
      var a := GroupNameWitness(done, key, i);
      var b := GroupNameWitness(done, key, j);
      assert done[a] in all && done[b] in all;
      if SortKey(gs[i].0) == SortKey(gs[j].0) {
        SortKeyInjective(done[a], done[b], cal, yearOf);
      }
    }
  }

  /** With every year from 1000 on, the screen lists each period once in
      rank order; each group holds exactly the done tasks of its period in
      stored order, and every done task is in the group of its period. */
  lemma GroupedCorrect(all: seq<Task>, cal: Calendar, yearOf: int -> int)
    requires YearsFromThousand(all, yearOf)
    ensures SortedBy(Grouped(all, cal, yearOf), SortKey)
    ensures DistinctNames(Grouped(all, cal, yearOf))
    ensures forall i :: 0 <= i < |Grouped(all, cal, yearOf)| ==>
      && Grouped(all, cal, yearOf)[i].1 ==
           Seqs.Filter(CompletedTasks(all), HasKey(PeriodOf(cal, yearOf), Grouped(all, cal, yearOf)[i].0))
      && |Grouped(all, cal, yearOf)[i].1| > 0
    ensures forall j :: 0 <= j < |CompletedTasks(all)| ==>
      KeyIndex(Grouped(all, cal, yearOf), Period(CompletedTasks(all)[j], cal, yearOf)) < |Grouped(all, cal, yearOf)|
  {
    var done := CompletedTasks(all);
    var key := PeriodOf(cal, yearOf);
    var gs := GroupBy(done, key);
    var m := Grouped(all, cal, yearOf);
    GroupByCorrect(done, key);
    PeriodRanksDistinct(all, cal, yearOf);
    ToSortedMapCorrect(gs, SortKey);
    SortedSameEntries(gs, m, SortKey);
    forall j | 0 <= j < |done|
      ensures KeyIndex(m, Period(done[j], cal, yearOf)) < |m|
    {
      var k := KeyIndex(gs, key(done[j]));
      assert gs[k].0 == Period(done[j], cal, yearOf);
    }
  }

  /** The year the counterexample below assigns to every day. */
  function YearNineNineNine(day: int): int {
    999
  }

  /** A task completed in the year 999 ranks 1999 like "Unknown": the map
      keeps the "Unknown" name with the year-999 task and drops the task
      with no completion date. */
  lemma YearNineNineNineHidesUnknown(undated: Task, ancient: Task)
    requires undated.isCompleted && undated.completedDate.None?
    requires ancient.isCompleted && ancient.completedDate.Some? && ancient.completedDate.value.day == 0
    ensures Grouped([undated, ancient], Calendar(1000, 1, 1, 1), YearNineNineNine) == [(UnknownLabel, [ancient])]
  {
    var cal := Calendar(1000, 1, 1, 1);
    var all := [undated, ancient];
    Seqs.FilterAll(all, IsDone);
    assert CompletedTasks(all) == all;
    var key := PeriodOf(cal, YearNineNineNine);
    var year := Decimal.IntToString(999);
    assert key(undated) == UnknownLabel;
    assert key(ancient) == year;
    var first := [(UnknownLabel, [undated])];
    assert GroupBy([undated], key) == first by {
      assert [undated][..0] == [];
    }
    assert all[..1] == [undated];
    var gs := GroupBy(all, key);
    assert gs == AddToGroup(first, year, ancient);
    assert year != UnknownLabel by {
      assert year[0] == '-' || Decimal.IsDigit(year[0]);
    }
    assert KeyIndex(first, year) == 1;
    assert gs == first + [(year, [ancient])];
    assert gs[..1] == first;
    assert ToSortedMap(first, SortKey) == first by {
      assert first[..0] == [];
    }
    YearSortKey(999);
    Decimal.LetterTextDoesNotParse(UnknownLabel);
    assert SortKey(year) == SortKey(UnknownLabel);
    assert ToSortedMap(gs, SortKey) == Put(first, year, [ancient], SortKey);
  }
}
