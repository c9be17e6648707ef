/** The task record of the third app, its priority enum and the type
    converters the database uses for it. Dates are day ordinals and
    date-times are a day with a minute of that day. */
module Task {
  import opened Basics

  datatype Priority = Low | Medium | High

  /** The enum's `displayName`. */
  function DisplayName(p: Priority): (s: string)
    ensures p == Low ==> s == "Low"
    ensures p == Medium ==> s == "Medium"
    ensures p == High ==> s == "High"
  {
    match p
    case Low => "Low"
    case Medium => "Medium"
    case High => "High"
  }

  /** The enum constant's `name`. */
  function Name(p: Priority): string {
    match p
    case Low => "LOW"
    case Medium => "MEDIUM"
    case High => "HIGH"
  }

  type MinuteOfDay = m: int | 0 <= m < 1440

  /** A `LocalDateTime` to the minute. */
  datatype DateTime = DateTime(day: int, minute: MinuteOfDay) {
    /** `LocalDateTime.hour`. */
    function Hour(): (h: int)
      ensures 0 <= h < 24
    {
      minute / 60
    }

    /** `isBefore`: chronological order. */
    predicate Before(other: DateTime) {
      day < other.day || (day == other.day && minute < other.minute)
    }

    /** `minusDays(n)` keeps the time of day. */
    function MinusDays(n: int): DateTime {
      DateTime(day - n, minute)
    }
  }

  datatype Task = Task(
    id: int,
    title: string,
    description: string,
    priority: Priority,
    dueDate: Option<DateTime>,
    isCompleted: bool,
    completedDate: Option<DateTime>)

  /** The record's constructor with every defaulted parameter left out. */
  function NewTask(title: string, description: string): (t: Task)
    ensures t.id == 0 && t.priority == Medium
    ensures t.dueDate == None && !t.isCompleted && t.completedDate == None
    ensures t.title == title && t.description == description
  {
    Task(0, title, description, Medium, None, false, None)
  }

  /** Type converter: a priority to its stored name, null to null. */
  function PriorityToString(p: Option<Priority>): (r: Option<string>)
    ensures p.None? <==> r.None?
    ensures p.Some? ==> r.value == Name(p.value)
  {
    match p
    case None => None
    case Some(q) => Some(Name(q))
  }

  /** Type converter: `TaskPriority.valueOf`, which throws on a name that is
      not a constant; null maps to null. */
  function FromPriorityString(s: Option<string>): (r: Result<Option<Priority>>)
    ensures s.None? ==> r == Ok(None)
    ensures s.Some? && r.Ok? ==> r.value.Some? && Name(r.value.value) == s.value
    ensures s.Some? ==> (r.Err? <==> s.value !in {"LOW", "MEDIUM", "HIGH"})
  {
    match s
    case None => Ok(None)
    case Some(name) =>
      if name == "LOW" then Ok(Some(Low))
      else if name == "MEDIUM" then Ok(Some(Medium))
      else if name == "HIGH" then Ok(Some(High))
      else Err(IllegalArgument("No enum constant com.luutuanhoang.assignment3.data.TaskPriority." + name))
  }

  /** Storing and reading back a priority gives the same priority. */
  lemma PriorityRoundTrip(p: Option<Priority>)
    ensures FromPriorityString(PriorityToString(p)) == Ok(p)
  {
  }

  /** Reading a stored name and storing it again gives the same name. */
  lemma PriorityNameRoundTrip(s: Option<string>)
    requires s.None? || s.value in {"LOW", "MEDIUM", "HIGH"}
    ensures FromPriorityString(s).Ok?
    ensures PriorityToString(FromPriorityString(s).value) == s
  {
  }

  /** The timestamp converters: `format` and `parse` stand for
      `LocalDateTime.toString()` and `LocalDateTime.parse`, which are library
      code; the converters themselves only map null to null. */
  function TimestampToString(d: Option<DateTime>, format: DateTime -> string): (r: Option<string>)
    ensures d.None? <==> r.None?
    ensures d.Some? ==> r.value == format(d.value)
  {
    match d
    case None => None
    case Some(v) => Some(format(v))
  }

  function FromTimestamp(s: Option<string>, parse: string -> Result<DateTime>): (r: Result<Option<DateTime>>)
    ensures s.None? ==> r == Ok(None)
    ensures s.Some? ==> (r.Ok? <==> parse(s.value).Ok?)
    ensures s.Some? && r.Ok? ==> r.value == Some(parse(s.value).value)
  {
    match s
    case None => Ok(None)
    case Some(text) =>
      match parse(text)
      case Ok(v) => Ok(Some(v))
      case Err(e) => Err(e)
  }

  /** With a parse that reads back what the format writes, storing a
      date-time (or null) and reading it back gives it back. */
  lemma TimestampRoundTrip(d: Option<DateTime>, format: DateTime -> string, parse: string -> Result<DateTime>)
    requires forall x :: parse(format(x)) == Ok(x)
    ensures FromTimestamp(TimestampToString(d, format), parse) == Ok(d)
  {
  }

  /** Marking a task done: a copy that is completed at `now`, with everything
      else kept. */
  function Complete(t: Task, now: DateTime): (r: Task)
    ensures r.isCompleted && r.completedDate == Some(now)
    ensures r.id == t.id && r.title == t.title && r.description == t.description
    ensures r.priority == t.priority && r.dueDate == t.dueDate
  {
    t.(isCompleted := true, completedDate := Some(now))
  }

  /** The data-access commands the screens issue. */
  datatype Command = Insert(task: Task) | Update(task: Task) | Delete(task: Task)
}
