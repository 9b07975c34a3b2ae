/** The pure slices of the dashboard (src/app/dashboard/page.tsx): the status
    filter, the new-task request body, and the local list after a create. The
    dashboard's `Task` has exactly the fields the API selects, so it is `TaskView`. */
module Dashboard {
  import opened Wrappers
  import opened JsString
  import opened TaskSchema
  import opened Db

  datatype Filter = All | Only(status: Status)

  /** `tasks.filter((t) => t.status === st)`. */
  function KeepStatus(tasks: seq<TaskView>, st: Status): (r: seq<TaskView>)
    ensures |r| <= |tasks|
    ensures forall t :: t in r <==> t in tasks && t.status == st
  {
    if tasks == [] then []
    else (if tasks[0].status == st then [tasks[0]] else []) + KeepStatus(tasks[1..], st)
  }

  /** `filteredTasks` (lines 39-42). */
  function FilteredTasks(tasks: seq<TaskView>, filter: Filter): (r: seq<TaskView>)
    ensures filter.All? ==> r == tasks
    ensures forall t :: t in r <==> t in tasks && (filter.All? || t.status == filter.status)
  {
    match filter
    case All => tasks
    case Only(st) => KeepStatus(tasks, st)
  }

  /** The filter distributes over concatenation: it keeps the matching tasks of
      each part and the order between and within parts. With `FilterOne`, this
      says the filtered list is the matching tasks in their original order. */
  lemma {:induction false} FilterAppend(a: seq<TaskView>, b: seq<TaskView>, filter: Filter)
    ensures FilteredTasks(a + b, filter) == FilteredTasks(a, filter) + FilteredTasks(b, filter)
  {
    if filter.Only? {
      KeepStatusAppend(a, b, filter.status);
    }
  }

  lemma {:induction false} KeepStatusAppend(a: seq<TaskView>, b: seq<TaskView>, st: Status)
    ensures KeepStatus(a + b, st) == KeepStatus(a, st) + KeepStatus(b, st)
  {
    if a == [] {
      assert a + b == b;
    } else {
      var head := if a[0].status == st then [a[0]] else [];
      calc {
        KeepStatus(a + b, st);
        == { assert (a + b)[0] == a[0] && (a + b)[1..] == a[1..] + b; }
        head + KeepStatus(a[1..] + b, st);
        == { KeepStatusAppend(a[1..], b, st); }
        head + (KeepStatus(a[1..], st) + KeepStatus(b, st));
        ==
        (head + KeepStatus(a[1..], st)) + KeepStatus(b, st);
      }
    }
  }

  lemma FilterOne(t: TaskView, filter: Filter)
    ensures FilteredTasks([t], filter) == if filter.All? || t.status == filter.status then [t] else []
  {
  }

  datatype NewTaskForm = NewTaskForm(title: string, description: string, status: Status)

  /** The form's initial value and the value it is reset to after a create (line 129). */
  const EmptyForm := NewTaskForm("", "", Pending)

  const TitleRequired := "Informe um título para a tarefa."

  /** What submitting the form does: nothing is sent when the title is blank
      (lines 96-99), otherwise one POST with the given body. */
  datatype Submission = NoRequest(error: string) | Send(body: TaskBody)

  /** The body `createTask` sends (lines 108-112): a blank description is sent
      as `null`. */
  function RequestBodyAsWritten(form: NewTaskForm): TaskBody {
    Obj(Str(Trim(form.title)),
        if Trim(form.description) != [] then Str(Trim(form.description)) else Null,
        Str(StatusName(form.status)))
  }

  /** The body with a blank description left out, which `createTaskSchema`
      (`z.string().optional()`) accepts. */
  function RequestBody(form: NewTaskForm): TaskBody {
    Obj(Str(Trim(form.title)),
        if Trim(form.description) != [] then Str(Trim(form.description)) else Undefined,
        Str(StatusName(form.status)))
  }

  /** Submitting the form as the page does it: the blank-title guard, then the
      request with a blank description sent as `null`. */
  function Submit(form: NewTaskForm): (s: Submission)
    ensures s.NoRequest? <==> AllWhitespace(form.title)
    ensures s.NoRequest? ==> s.error == TitleRequired
    ensures s.Send? ==> s.body == RequestBodyAsWritten(form)
  {
    TrimEmptyIff(form.title);
    if Trim(form.title) == [] then NoRequest(TitleRequired) else Send(RequestBodyAsWritten(form))
  }

  /** Submitting the form with the corrected body: the same guard, and a blank
      description left out of the request. */
  function SubmitFixed(form: NewTaskForm): (s: Submission)
    ensures s.NoRequest? <==> AllWhitespace(form.title)
    ensures s.NoRequest? ==> s.error == TitleRequired
    ensures s.Send? ==> s.body == RequestBody(form)
  {
    TrimEmptyIff(form.title);
    if Trim(form.title) == [] then NoRequest(TitleRequired) else Send(RequestBody(form))
  }

  /** The body as written is accepted by the server's schema exactly when the
      description is not blank and the trimmed title has 1 to 255 code units;
      then the server reads back the trimmed title, the trimmed description and
      the form's status. */
  lemma AsWrittenAcceptedIff(form: NewTaskForm)
    ensures ParseCreate(RequestBodyAsWritten(form)).Some? <==>
      !AllWhitespace(form.description) && TitleOk(Trim(form.title))
    ensures ParseCreate(RequestBodyAsWritten(form)).Some? ==>
      ParseCreate(RequestBodyAsWritten(form)).value
        == TaskInput(Trim(form.title), Some(Trim(form.description)), Some(form.status))
  {
    TrimEmptyIff(form.description);
    ParseCreateWithStatus(Trim(form.title), RequestBodyAsWritten(form).description, form.status);
  }

  /** The defect: a form with a non-blank title and a blank description passes
      the dashboard's guard, yet its body is rejected by `createTaskSchema`, so
      the server answers 400 "Dados inválidos". */
  lemma BlankDescriptionRejected(form: NewTaskForm)
    requires !AllWhitespace(form.title) && AllWhitespace(form.description)
    ensures Submit(form).Send? && ParseCreate(Submit(form).body).None?
  {
    AsWrittenAcceptedIff(form);
  }

  /** A concrete instance: title "Buy milk", no description. */
  lemma BlankDescriptionExample()
    ensures Submit(NewTaskForm("Buy milk", "", Pending)).Send?
    ensures ParseCreate(Submit(NewTaskForm("Buy milk", "", Pending)).body).None?
  {
    var form := NewTaskForm("Buy milk", "", Pending);
    assert !IsWhitespace(form.title[0]);
    BlankDescriptionRejected(form);
  }

  /** With the description left out when blank, every request the form sends
      with a title of at most 255 code units is accepted, and the server reads
      back what the user typed, trimmed. */
  lemma RequestBodyAccepted(form: NewTaskForm)
    requires !AllWhitespace(form.title) && Utf16Length(Trim(form.title)) <= 255
    ensures SubmitFixed(form).Send?
    ensures ParseCreate(SubmitFixed(form).body)
      == Some(TaskInput(Trim(form.title),
                        if AllWhitespace(form.description) then None else Some(Trim(form.description)),
                        Some(form.status)))
  {
    TrimEmptyIff(form.title);
    TrimEmptyIff(form.description);
    ParseCreateWithStatus(Trim(form.title), RequestBody(form).description, form.status);
  }

  /** After a successful create (lines 127-129): the new task heads the list,
      the previous tasks follow unchanged, and the form is cleared. */
  function OnCreated(prev: seq<TaskView>, created: TaskView): (r: (seq<TaskView>, NewTaskForm)) {
    ([created] + prev, EmptyForm)
  }

  /** What the filtered view shows after a create: the new task first if it
      matches the filter, then what was shown before. */
  lemma FilterAfterCreate(prev: seq<TaskView>, created: TaskView, filter: Filter)
    ensures FilteredTasks(OnCreated(prev, created).0, filter)
      == (if filter.All? || created.status == filter.status then [created] else []) + FilteredTasks(prev, filter)
  {
    FilterAppend([created], prev, filter);
    FilterOne(created, filter);
  }

  /** The form is cleared to an empty title, an empty description and status
      `pending`, so submitting it again at once sends nothing. */
  lemma ResetFormBlocksResubmit(prev: seq<TaskView>, created: TaskView)
    ensures OnCreated(prev, created).1.status == Pending
    ensures OnCreated(prev, created).1.description == []
    ensures Submit(OnCreated(prev, created).1) == NoRequest(TitleRequired)
  {
  }
}
