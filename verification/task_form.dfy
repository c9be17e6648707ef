/** The add/edit form of the task manager: field validation, the form's
    validity, loading a task for editing, field edits that re-validate only
    while an error is showing, and the save button. */
module TaskForm {
  import opened Basics
  import opened Text
  import opened Task

  datatype TitleError = TitleEmpty | TitleTooShort
  datatype DescriptionError = DescriptionTooLong
  datatype DueDateError = DueDateInPast

  function TitleMessage(e: TitleError): string {
    match e
    case TitleEmpty => "Title cannot be empty"
    case TitleTooShort => "Title must be at least 3 characters"
  }

  const MinTitleLength: int := 3
  const MaxDescriptionLength: int := 500

  datatype Form = Form(
    task: Task,
    isEditing: bool,
    titleError: Option<TitleError>,
    descriptionError: Option<DescriptionError>,
    dueDateError: Option<DueDateError>)

  /** The form as first composed: an empty medium-priority task and no
      errors. */
  function NewForm(): (f: Form)
    ensures f.task.id == 0 && f.task.title == "" && f.task.description == ""
    ensures f.task.priority == Medium && f.task.dueDate == None && !f.task.isCompleted
    ensures f.task.completedDate == None
    ensures !f.isEditing
    ensures f.titleError == None && f.descriptionError == None && f.dueDateError == None
  {
    Form(Task(0, "", "", Medium, None, false, None), false, None, None, None)
  }

  function CheckTitle(title: string): (e: Option<TitleError>)
    ensures e == Some(TitleEmpty) <==> IsBlank(title)
    ensures e == Some(TitleTooShort) <==> !IsBlank(title) && |title| < MinTitleLength
    ensures e == None <==> !IsBlank(title) && |title| >= MinTitleLength
  {
    if IsBlank(title) then Some(TitleEmpty)
    else if |title| < MinTitleLength then Some(TitleTooShort)
    else None
  }

  function CheckDescription(description: string): (e: Option<DescriptionError>)
    ensures e.Some? <==> |description| > MaxDescriptionLength
  {
    if |description| > MaxDescriptionLength then Some(DescriptionTooLong) else None
  }

  /** A due date in the past is an error only for a task not yet done. */
  function CheckDueDate(t: Task, now: DateTime): (e: Option<DueDateError>)
    ensures e.Some? <==> t.dueDate.Some? && t.dueDate.value.Before(now) && !t.isCompleted
    ensures t.isCompleted ==> e.None?
  {
    if t.dueDate.Some? && t.dueDate.value.Before(now) && !t.isCompleted then Some(DueDateInPast)
    else None
  }

  /** `validateFields`: recomputes all three errors from the task. */
  function Validate(f: Form, now: DateTime): (r: Form)
    ensures r.task == f.task && r.isEditing == f.isEditing
    ensures r.titleError == CheckTitle(f.task.title)
    ensures r.descriptionError == CheckDescription(f.task.description)
    ensures r.dueDateError == CheckDueDate(f.task, now)
  {
    f.(titleError := CheckTitle(f.task.title),
       descriptionError := CheckDescription(f.task.description),
       dueDateError := CheckDueDate(f.task, now))
  }

  /** `isFormValid`, which also enables the save button. */
  predicate IsFormValid(f: Form) {
    !IsBlank(f.task.title) && f.titleError.None? && f.descriptionError.None? && f.dueDateError.None?
  }

  /** After validation the form is valid exactly when the title has at least
      three characters and is not blank, the description has at most 500, and
      an open task is not due in the past. */
  lemma ValidatedFormValid(f: Form, now: DateTime)
    ensures IsFormValid(Validate(f, now)) <==>
      && !IsBlank(f.task.title)
      && |f.task.title| >= MinTitleLength
      && |f.task.description| <= MaxDescriptionLength
      && !(f.task.dueDate.Some? && f.task.dueDate.value.Before(now) && !f.task.isCompleted)
  {
  }

  lemma ValidateIdempotent(f: Form, now: DateTime)
    ensures Validate(Validate(f, now), now) == Validate(f, now)
  {
  }

  /** The launched effect: with a task id other than -1 and a task found for
      it (`found` is the database lookup's answer), the form switches to
      editing that task; otherwise it is left alone. */
  function LoadForEdit(f: Form, taskId: int, found: Option<Task>): (r: Form)
    ensures taskId != -1 && found.Some? ==> r == f.(task := found.value, isEditing := true)
    ensures taskId == -1 || found.None? ==> r == f
  {
    if taskId != -1 && found.Some? then f.(task := found.value, isEditing := true) else f
  }

  /** Typing in the title field: re-validates only while a title error is
      showing. */
  function EditTitle(f: Form, title: string, now: DateTime): (r: Form)
    ensures r.task == f.task.(title := title) && r.isEditing == f.isEditing
    ensures f.titleError.Some? ==> r == Validate(f.(task := f.task.(title := title)), now)
    ensures f.titleError.None? ==>
      r.titleError.None? && r.descriptionError == f.descriptionError && r.dueDateError == f.dueDateError
  {
    var f' := f.(task := f.task.(title := title));
    if f.titleError.Some? then Validate(f', now) else f'
  }

  /** Typing in the description field: re-validates only while a
      description error is showing. */
  function EditDescription(f: Form, description: string, now: DateTime): (r: Form)
    ensures r.task == f.task.(description := description) && r.isEditing == f.isEditing
    ensures f.descriptionError.Some? ==> r == Validate(f.(task := f.task.(description := description)), now)
    ensures f.descriptionError.None? ==>
      r.descriptionError.None? && r.titleError == f.titleError && r.dueDateError == f.dueDateError
  {
    var f' := f.(task := f.task.(description := description));
    if f.descriptionError.Some? then Validate(f', now) else f'
  }

  /** Choosing a priority never re-validates. */
  function SetPriority(f: Form, p: Priority): (r: Form)
    ensures r == f.(task := f.task.(priority := p))
  {
    f.(task := f.task.(priority := p))
  }

  /** Confirming the time picker: re-validates only while a due-date error
      is showing. */
  function SetDueDate(f: Form, due: DateTime, now: DateTime): (r: Form)
    ensures r.task == f.task.(dueDate := Some(due)) && r.isEditing == f.isEditing
    ensures f.dueDateError.Some? ==> r == Validate(f.(task := f.task.(dueDate := Some(due))), now)
    ensures f.dueDateError.None? ==>
      r.dueDateError.None? && r.titleError == f.titleError && r.descriptionError == f.descriptionError
  {
    var f' := f.(task := f.task.(dueDate := Some(due)));
    if f.dueDateError.Some? then Validate(f', now) else f'
  }

  /** The save button: validates, then persists only a valid form, updating
      when editing and inserting otherwise. */
  function SaveForm(f: Form, now: DateTime): (r: (Form, Option<Command>))
    ensures r.0 == Validate(f, now)
    ensures r.1.Some? <==> IsFormValid(Validate(f, now))
    ensures r.1.Some? && f.isEditing ==> r.1.value == Update(f.task)
    ensures r.1.Some? && !f.isEditing ==> r.1.value == Insert(f.task)
  {
    var v := Validate(f, now);
    if IsFormValid(v) then (v, Some(if f.isEditing then Update(f.task) else Insert(f.task)))
    else (v, None)
  }

  /** The save button is enabled only while the form is valid: a tap on
      the disabled button does nothing, an enabled one saves. */
  function SaveTap(f: Form, now: DateTime): (r: (Form, Option<Command>))
    ensures !IsFormValid(f) ==> r == (f, None)
    ensures IsFormValid(f) ==> r == SaveForm(f, now)
    ensures r.1.Some? ==> IsFormValid(f) && IsFormValid(Validate(f, now))
  {
    if IsFormValid(f) then SaveForm(f, now) else (f, None)
  }

  /** Whether an edit re-validates or not, saving afterwards issues the same
      command as saving the plainly edited task: re-validation on edit only
      changes which errors show. */
  lemma EditsDoNotChangeSave(f: Form, title: string, description: string, p: Priority, due: DateTime, now: DateTime)
    ensures SaveForm(EditTitle(f, title, now), now).1 == SaveForm(f.(task := f.task.(title := title)), now).1
    ensures SaveForm(EditDescription(f, description, now), now).1 ==
      SaveForm(f.(task := f.task.(description := description)), now).1
    ensures SaveForm(SetPriority(f, p), now).1 == SaveForm(f.(task := f.task.(priority := p)), now).1
    ensures SaveForm(SetDueDate(f, due, now), now).1 == SaveForm(f.(task := f.task.(dueDate := Some(due))), now).1
  {
  }

  /** A form loaded for editing saves as an update of the loaded task, once
      that task passes validation. */
  lemma LoadThenSaveUpdates(f: Form, taskId: int, found: Task, now: DateTime)
    requires taskId != -1
    requires IsFormValid(Validate(f.(task := found), now))
    ensures SaveForm(LoadForEdit(f, taskId, Some(found)), now).1 == Some(Update(found))
  {
  }

  /** Stale errors block the button: loading a task into a form showing a
      title error keeps that error, so the button stays disabled whatever
      task is loaded. */
  lemma StaleErrorsDisableSave(f: Form, taskId: int, found: Task, now: DateTime)
    requires f.titleError.Some?
    ensures SaveTap(LoadForEdit(f, taskId, Some(found)), now).1.None?
  {
  }

  /** A saved task always has a title of at least three characters that is
      not blank and a description of at most 500 characters. */
  lemma SavedTaskIsWellFormed(f: Form, now: DateTime)
    requires SaveForm(f, now).1.Some?
    ensures var t := SaveForm(f, now).1.value.task;
      !IsBlank(t.title) && |t.title| >= MinTitleLength && |t.description| <= MaxDescriptionLength
  {
    ValidatedFormValid(f, now);
  }

  /** Before any validation a two-letter title leaves the save button
      enabled, but tapping it validates and persists nothing. */
  lemma ShortTitleEnablesButOnlyRevalidates(now: DateTime)
    ensures var f := NewForm().(task := NewForm().task.(title := "ab"));
      && IsFormValid(f)
      && SaveForm(f, now).1.None?
      && SaveForm(f, now).0.titleError == Some(TitleTooShort)
  {
    var f := NewForm().(task := NewForm().task.(title := "ab"));
    assert !IsWhitespace(f.task.title[0]);
  }
}
