/** The zod schemas of `src/types/task.ts`: `createTaskSchema` and its
    all-optional variant `updateTaskSchema`, as parsers over a decoded JSON
    request body. A parser returns the parsed data (zod's `success: true`) or
    `None` (`success: false`). */
module TaskSchema {
  import opened Wrappers
  import opened JsString

  datatype Status = Pending | InProgress | Completed

  /** The wire name of a status. */
  function StatusName(s: Status): string {
    match s
    case Pending => "pending"
    case InProgress => "in_progress"
    case Completed => "completed"
  }

  /** `z.enum(["pending", "in_progress", "completed"])` on a string. */
  function ParseStatus(name: string): (r: Option<Status>)
    ensures r.Some? <==> name in {"pending", "in_progress", "completed"}
    ensures r.Some? ==> StatusName(r.value) == name
  {
    if name == "pending" then Some(Pending)
    else if name == "in_progress" then Some(InProgress)
    else if name == "completed" then Some(Completed)
    else None
  }

  /** Every status survives the trip to its wire name and back. */
  lemma StatusRoundTrip(s: Status)
    ensures ParseStatus(StatusName(s)) == Some(s)
  {
  }

  /** One property of a JSON object: absent (`undefined`), `null`, a string, or
      any other JSON value (number, boolean, array, object). */
  datatype Field = Undefined | Null | Str(text: string) | OtherValue

  /** A decoded request body. Keys other than these three are ignored by
      `z.object`, so they are not represented. */
  datatype TaskBody = Obj(title: Field, description: Field, status: Field) | NotAnObject

  /** The data of a body accepted by `createTaskSchema`. */
  datatype TaskInput = TaskInput(title: string, description: Option<string>, status: Option<Status>)

  /** The data of a body accepted by `updateTaskSchema`. */
  datatype TaskPatch = TaskPatch(title: Option<string>, description: Option<string>, status: Option<Status>)

  /** `z.string().min(1).max(255)`: zod measures `.length`, in UTF-16 code units. */
  predicate TitleOk(s: string) {
    1 <= Utf16Length(s) <= 255
  }

  /** The title rule applied to a present field. */
  function ParseTitle(f: Field): Option<string> {
    if f.Str? && TitleOk(f.text) then Some(f.text) else None
  }

  /** An `.optional()` wrapper around a field parser: `undefined` parses to
      `Some(None)`, any other value must satisfy `inner`. */
  function Optional<T>(f: Field, inner: Field -> Option<T>): Option<Option<T>> {
    if f.Undefined? then Some(None)
    else match inner(f)
      case Some(v) => Some(Some(v))
      case None => None
  }

  /** `z.string()`: strings of any length, nothing else (in particular not `null`). */
  function ParseString(f: Field): Option<string> {
    if f.Str? then Some(f.text) else None
  }

  /** The enumeration rule applied to a present field. */
  function ParseStatusField(f: Field): Option<Status> {
    if f.Str? then ParseStatus(f.text) else None
  }

  /** `createTaskSchema.safeParse(body)` (src/types/task.ts:3-7). */
  function ParseCreate(b: TaskBody): Option<TaskInput> {
    if b.NotAnObject? then None
    else
      var title := ParseTitle(b.title);
      var description := Optional(b.description, ParseString);
      var status := Optional(b.status, ParseStatusField);
      if title.Some? && description.Some? && status.Some? then
        Some(TaskInput(title.value, description.value, status.value))
      else None
  }

  /** `updateTaskSchema.safeParse(body)`: `createTaskSchema.partial()`
      (src/types/task.ts:10) makes every field optional, keeping each rule. */
  function ParseUpdate(b: TaskBody): Option<TaskPatch> {
    if b.NotAnObject? then None
    else
      var title := Optional(b.title, ParseTitle);
      var description := Optional(b.description, ParseString);
      var status := Optional(b.status, ParseStatusField);
      if title.Some? && description.Some? && status.Some? then
        Some(TaskPatch(title.value, description.value, status.value))
      else None
  }

  /** The conditions under which `createTaskSchema` accepts a body, field by
      field, and the data it yields. */
  lemma CreateAcceptsIff(b: TaskBody)
    ensures ParseCreate(b).Some? <==>
      && b.Obj?
      && b.title.Str? && 1 <= Utf16Length(b.title.text) <= 255
      && (b.description.Undefined? || b.description.Str?)
      && (b.status.Undefined? || (b.status.Str? && b.status.text in {"pending", "in_progress", "completed"}))
    ensures ParseCreate(b).Some? ==>
      && ParseCreate(b).value.title == b.title.text
      && (ParseCreate(b).value.description == if b.description.Str? then Some(b.description.text) else None)
      && (ParseCreate(b).value.status.Some? <==> b.status.Str?)
      && (b.status.Str? ==> StatusName(ParseCreate(b).value.status.value) == b.status.text)
  {
  }

  /** A body whose title is a string and whose status is a valid wire name
      is accepted exactly when its title has 1 to 255 code units and its
      description is absent or a string. */
  lemma ParseCreateWithStatus(title: string, description: Field, st: Status)
    ensures ParseCreate(Obj(Str(title), description, Str(StatusName(st))))
      == if TitleOk(title) && (description.Undefined? || description.Str?) then
           Some(TaskInput(title, if description.Str? then Some(description.text) else None, Some(st)))
         else None
  {
    StatusRoundTrip(st);
    assert Optional(Str(StatusName(st)), ParseStatusField) == Some(Some(st));
  }

  /** A `null` description is rejected by both schemas, whatever the other
      fields hold. */
  lemma NullDescriptionRejected(title: Field, status: Field)
    ensures ParseCreate(Obj(title, Null, status)).None?
    ensures ParseUpdate(Obj(title, Null, status)).None?
  {
  }

  /** The empty object is a valid update: it changes nothing. */
  lemma EmptyPatchAccepted()
    ensures ParseUpdate(Obj(Undefined, Undefined, Undefined)) == Some(TaskPatch(None, None, None))
  {
  }

  /** The update schema keeps the create schema's rules for the fields that are
      present, and lets every field be absent. */
  lemma UpdateAcceptsIff(b: TaskBody)
    ensures ParseUpdate(b).Some? <==>
      && b.Obj?
      && (b.title.Undefined? || (b.title.Str? && 1 <= Utf16Length(b.title.text) <= 255))
      && (b.description.Undefined? || b.description.Str?)
      && (b.status.Undefined? || (b.status.Str? && b.status.text in {"pending", "in_progress", "completed"}))
  {
  }

  /** Every body the create schema accepts is accepted by the update schema,
      which yields the same data with the title made optional. */
  lemma CreateImpliesUpdate(b: TaskBody)
    requires ParseCreate(b).Some?
    ensures ParseUpdate(b) == Some(TaskPatch(Some(ParseCreate(b).value.title),
                                             ParseCreate(b).value.description,
                                             ParseCreate(b).value.status))
  {
  }
}
