# hubfy-tasks in Dafny

A model of the core of hubfy-tasks, a small multi-user task tracker built on
Next.js. Users register and log in. A signed bearer token then gives them
access to their own tasks.

The model covers:

- **The bearer-token check** (`authenticateRequest`). The exact `"Bearer "`
  prefix test, the token extraction with `String.prototype.replace`, and the
  two 401 outcomes. The token verifier is a function parameter
  (`string -> Option<Payload>`).
- **The task schemas** (`createTaskSchema`, `updateTaskSchema`). They are
  parsers over a decoded JSON body whose fields are absent, `null`, a string
  or any other value. Lengths are counted in UTF-16 code units, as zod does.
- **The route handlers.**
  - `GET` and `POST /api/tasks`.
  - `POST /api/auth/register`, which checks that the email is free and then
    inserts.
  - `POST /api/auth/login`, a read-only chain of early returns.
  - The database is a `Db.Store` class that holds the user and task tables as
    sequences, plus the auto-increment counters that hand out ids.
  - The register handler is a method whose `modifies` clause names only the
    user table and its counter. Task creation names only the task table and
    its counter.
  - Login is a function of the user table.
  - bcrypt's compare and jsonwebtoken's sign are function parameters.
    bcrypt's hash is a plain `hashed` argument, because a fresh salt makes it
    no function of the password.
  - A handler that catches exceptions receives `thrown`, which names the
    call inside the `try` that throws, if any: one of the calls the model
    names (`findUnique`, `hashPassword`, `user.create`, `comparePasswords`,
    `generateToken`).
- **The login form**. The email regex, read piece by piece. The per-field
  error messages. `canSubmit`.
- **The dashboard's pure slices.**
  - The status filter.
  - The blank-title guard.
  - The create request body, as the page builds it (`Dashboard.Submit`) and
    with the blank-description defect corrected (`Dashboard.SubmitFixed`).
  - The list and the form after a successful create.

Whitespace is the fixed set that JavaScript's `\s` and `trim` use:
WhiteSpace, which includes the Unicode Zs category, plus LineTerminator.

Module layout: `Wrappers` (Option), `JsString` (trim, UTF-16 length,
`startsWith`, `replace`), `TaskSchema`, `Db`, `Http` (responses),
`Middleware`, `TasksRoute`, `RegisterRoute`, `LoginRoute`, `LoginPage`,
`Dashboard`, and `Flows`. `Flows` chains requests the way a client does.

## Model

| member | source | states |
|---|---|---|
| `Middleware.TokenOf` | src/lib/middleware.ts:5-16 | There is no token exactly when the header is missing, empty, or lacks the exact case-sensitive `"Bearer "` prefix. Otherwise the token is the header without its first 7 characters. |
| `JsString.ReplacePrefix` | src/lib/middleware.ts:16 | `replace` changes only the first occurrence. When the string starts with the pattern, that occurrence is the prefix, so replacing it with `""` drops exactly the prefix. |
| `Middleware.Authenticate` | src/lib/middleware.ts:4-29 | Exactly one of `error` and `user` is set. An error is always a 401. A user is exactly the verifier's payload for the extracted token. |
| `Middleware.MissingHeaderRejected` | src/lib/middleware.ts:7-14 | A missing or empty header gives 401 "Token não fornecido" and no user, for any verifier. |
| `Middleware.NoSchemeRejected` | src/lib/middleware.ts:7-14 | A header without the prefix gives the same rejection. The verifier is never consulted, so any two verifiers give the same result. |
| `Middleware.SchemeIsExact` | src/lib/middleware.ts:7 | `"bearer x"` and `"Bearer"` are both rejected as missing tokens. |
| `Middleware.BearerRoundTrip` | src/lib/middleware.ts:16-27 | For every token `t`, the header `"Bearer " + t` that the clients build yields exactly `t`. The verifier's payload becomes the user; a verifier failure gives 401 "Token inválido ou expirado". |
| `TaskSchema.ParseStatus` | src/types/task.ts:6 | The enumeration accepts exactly `pending`, `in_progress` and `completed`, and the parsed status has that wire name. |
| `TaskSchema.StatusRoundTrip` | src/types/task.ts:6 | Every status parses back from its wire name. |
| `TaskSchema.CreateAcceptsIff` | src/types/task.ts:3-7 | A body is accepted iff it is an object, its title is a string of 1 to 255 UTF-16 code units, its description is absent or a string (any length), and its status is absent or one of the three names. The parsed data carries these fields unchanged. |
| `TaskSchema.ParseCreateWithStatus` | src/types/task.ts:3-7 | A body with a string title and a valid status name is accepted exactly when the title has 1 to 255 code units and the description is absent or a string. The parsed data is that title, that description and that status. |
| `TaskSchema.NullDescriptionRejected` | src/types/task.ts:5 | Both schemas reject a `null` description, whatever the other fields hold. |
| `TaskSchema.EmptyPatchAccepted` | src/types/task.ts:10 | The empty object is a valid update that sets nothing. |
| `TaskSchema.UpdateAcceptsIff` | src/types/task.ts:4-10 | Every update field is optional. A present title still needs 1 to 255 code units. A present status must still be in the enumeration. |
| `TaskSchema.CreateImpliesUpdate` | src/types/task.ts:10 | Every body the create schema accepts is accepted by the update schema, with the same data. |
| `Db.FindByEmail` | src/app/api/auth/login/route.ts:22 | `findUnique({ where: { email } })` returns a user of the table with that email. It returns nothing exactly when no user has that email. |
| `Db.FindByEmailFinds` | src/app/api/auth/register/route.ts:21 | With unique emails, looking up a user's email finds exactly that user. |
| `Db.WhereOwner` | src/app/api/tasks/route.ts:11 | `where: { userId }` keeps exactly the rows whose owner is the caller. |
| `Db.OrderNewestFirst` | src/app/api/tasks/route.ts:12 | The store's ordering is a permutation of its input with non-increasing `createdAt`. |
| `Db.FindManyByOwner` | src/app/api/tasks/route.ts:10-21 | The listing query returns an owner listing: the `select`ed projections of the caller's rows, each as often as it occurs, newest first. |
| `Db.ListingExactlyOwned` | src/app/api/tasks/route.ts:10-20 | A view is in a listing iff it is the projection of a row owned by the caller. None of the caller's tasks is missing. |
| `Db.OthersTasksHidden` | src/app/api/tasks/route.ts:11 | Since ids are unique, another user's task never appears in the caller's listing. |
| `Db.NewestComesFirst` | src/app/api/tasks/route.ts:12 | In a listing, a task strictly newer than all the others is first. |
| `Db.Store.CreateUser` | src/app/api/auth/register/route.ts:31-42 | `prisma.user.create` appends one user with the next id and keeps emails and ids unique. It fails and changes nothing when the email is already taken. |
| `Db.Store.CreateTask` | src/app/api/tasks/route.ts:42-57 | `prisma.task.create` appends exactly one row with the next id and the given fields, and keeps ids unique. |
| `TasksRoute.Get` | src/app/api/tasks/route.ts:6-24 | An authentication failure returns the authenticator's 401. Otherwise the response is 200 with an owner listing for the caller, whose `TaskView` has no `userId`. The store is not modified. |
| `TasksRoute.Post` | src/app/api/tasks/route.ts:26-60 | An authentication failure returns the authenticator's 401 and leaves the table and its id counter unchanged. A body the schema rejects gives 400 "Dados inválidos" and leaves the table and counter unchanged. Otherwise exactly one row is appended, owned by the caller, with the next id, the parsed title and description and the given status or `pending`, and the counter moves on by one. The response is 201 with the row's public fields. |
| `RegisterRoute.Post` | src/app/api/auth/register/route.ts:6-54 | A schema failure gives 400. A taken email gives 409 "Email já cadastrado". A throwing call gives 500 "Erro interno do servidor". Success (201) happens exactly when the email is free and nothing throws. On success exactly one user is added with the next id, storing `hashed` rather than the password, the id counter moves on by one, and the response holds only id, name and email. Any other outcome leaves the table and its counter unchanged. Emails stay unique. |
| `LoginRoute.Post` | src/app/api/auth/login/route.ts:8-53 | A schema failure gives 400. 200 happens exactly when the email is known, the password compares equal and nothing throws. The token is then `sign({ userId, email })` of that user, and the response holds only id, name and email. Every 401 is the one "Email ou senha inválidos" response. 500 "Erro interno do servidor" happens exactly when a named call throws on the path the request takes: `findUnique` for any valid body, `comparePasswords` for a known email, `generateToken` after a matching password. The user table is only read. |
| `LoginRoute.UniformCredentialFailure` | src/app/api/auth/login/route.ts:22-36 | An unknown email and a wrong password give the same status and the same body. |
| `LoginRoute.LoginAfterRegister` | src/app/api/auth/login/route.ts:22-46 | After a registration appends a user whose email was free, logging in with a password that bcrypt matches against the stored hash returns 200, a token signed over that user's id and email, and the user's public fields. |
| `LoginPage.ValidEmailHasShape` | src/app/login/page.tsx:10-12 | An email the regex accepts has no whitespace and exactly one `@`, at a position after the first character. The part after the `@` contains a `.` that is neither its first nor its last character. |
| `LoginPage.ShapeIsValidEmail` | src/app/login/page.tsx:10-12 | Every string of that shape is accepted by the regex. |
| `LoginPage.ValidEmailIff` | src/app/login/page.tsx:11 | The regex accepts exactly the strings of that shape. |
| `LoginPage.ValidEmailNotBlank` | src/app/login/page.tsx:25-26 | An email the regex accepts is never blank, so the two email messages cannot both apply. |
| `JsString.TrimEmptyIff` | src/app/login/page.tsx:25 | `!s.trim()` holds exactly when every character is whitespace. |
| `LoginPage.EmailErrorCases` | src/app/login/page.tsx:25-26 | The email error is "Informe seu email." exactly for a blank email. It is "Email inválido." exactly for a non-blank email that fails the regex on the untrimmed text. There is no email error exactly when the regex accepts. |
| `LoginPage.PasswordErrorCases` | src/app/login/page.tsx:28-30 | The password error is "Informe sua senha." exactly for a blank password. Otherwise it is the minimum-length message exactly when the untrimmed length is below 8 code units. At most one message is set, and the blank check wins. |
| `LoginPage.CanSubmitIff` | src/app/login/page.tsx:22-35 | `canSubmit` holds exactly when the email has the valid shape, the password is non-blank with at least 8 code units, and no submission is in flight. |
| `Dashboard.KeepStatus` | src/app/dashboard/page.tsx:41 | The filter keeps exactly the tasks with the given status and never lengthens the list. |
| `Dashboard.FilteredTasks` | src/app/dashboard/page.tsx:39-42 | With "all" the list is unchanged. Otherwise a task is shown iff it is in the list with that status. |
| `Dashboard.KeepStatusAppend` | src/app/dashboard/page.tsx:41 | Filtering distributes over concatenation. |
| `Dashboard.FilterAppend` | src/app/dashboard/page.tsx:39-42 | The filtered list of `a + b` is the filtered `a` followed by the filtered `b`. With `FilterOne`, the shown tasks keep their original order. |
| `Dashboard.FilterOne` | src/app/dashboard/page.tsx:41 | A one-task list is kept iff its task matches the filter. |
| `Dashboard.Submit` | src/app/dashboard/page.tsx:96-112 | No request is sent, and "Informe um título para a tarefa." is set, exactly when the title is blank. Otherwise the one request carries the body as the page builds it: trimmed title, trimmed description or `null` when it is blank, and the status. |
| `Dashboard.SubmitFixed` | src/app/dashboard/page.tsx:96-112 | The same guard and message. Otherwise the one request carries the corrected body, which leaves a blank description out instead of sending `null`. |
| `Dashboard.AsWrittenAcceptedIff` | src/app/dashboard/page.tsx:108-112 | The body as written is accepted by `createTaskSchema` iff the description is non-blank and the trimmed title has 1 to 255 code units. The server then reads the trimmed title, the trimmed description and the form's status. |
| `Dashboard.BlankDescriptionRejected` | src/app/dashboard/page.tsx:110 | A form with a title and a blank description passes the guard and sends a request, yet the schema rejects the body `Submit` sends, so the server answers 400. |
| `Dashboard.BlankDescriptionExample` | src/app/dashboard/page.tsx:110 | Title "Buy milk" with no description is sent, and its body is rejected. |
| `Dashboard.RequestBodyAccepted` | src/app/dashboard/page.tsx:108-112 | With `SubmitFixed`, every non-blank title of at most 255 code units (trimmed) sends a request the schema accepts. The server reads back what was typed, trimmed. |
| `Dashboard.FilterAfterCreate` | src/app/dashboard/page.tsx:127 | After a create, the filtered view is the new task (if it matches the filter) followed by the previous view, unchanged and in order. |
| `Dashboard.ResetFormBlocksResubmit` | src/app/dashboard/page.tsx:129 | The form is reset to an empty title, an empty description and `pending`, so submitting it again at once sends nothing. |
| `Flows.EmptyListing` | src/app/api/tasks/route.ts:10-23 | A caller who owns no rows gets an empty list, which is a normal 200 result. |
| `Flows.SignUpSignInList` | src/app/api/auth/register/route.ts:21-47 | Register, then log in with the same credentials, then list with `"Bearer " + token`: the responses are 201, then 200 for the same public user, then 200 with an empty list. This assumes bcrypt and jsonwebtoken keep their documented promises. |
| `Flows.CreateThenList` | src/app/api/tasks/route.ts:40-59 | After a create, the caller's listing starts with the new task, provided the store's clock has passed every earlier task of the caller. |

## Left out

- `src/lib/auth.ts` is not part of this model. bcrypt and jsonwebtoken are represented only by parameters: `hashed`, `compare`, `sign` and `verify`. Their promises appear only as preconditions of `Flows` and `LoginRoute.LoginAfterRegister`. Salting, signature checks, expiry and the `JWT_SECRET` startup check are not modelled.
- `@/types/auth` is not part of this model. `registerSchema` and `loginSchema` enter the model only as the outcome of their `safeParse` (`Option`), and zod's `details` on a 400 are not represented.
- `@/lib/db` and the Prisma schema are not part of this model.
  - Only the handlers' `where`, `orderBy`, `select` and `data` arguments are interpreted.
  - Ids come from counters, and `createdAt`/`updatedAt` come from a `now` argument.
  - The order among equal `createdAt` values is left open by `Db.IsOwnerListing`. `Db.OrderNewestFirst` is just one order the store may produce.
  - The foreign key from a task to its user is not modelled.
- `request.json()` and its failures are left out; the handlers receive the decoded body. A thrown failure in the tasks routes, which have no `try`, is also left out.
- Exceptions inside the register and login `try` blocks are modelled only at the calls inside the `try` that the model names (`findUnique`, `hashPassword`, `user.create`, `comparePasswords`, `generateToken`). A throw from the awaited `request.json()` or from the schema's `safeParse` is not modelled.
- `async`/`await` and concurrent requests are left out. Each handler runs to completion on the store.
- `src/app/api/tasks/[id]/route.ts` (update and delete) is not part of this model. That file declares its own update schema, with a nullable description of at most 5000 characters. `TaskSchema.ParseUpdate` models the one in `src/types/task.ts`.
- `src/lib/tasks-client.ts` is represented only by the header shape `"Bearer " + token` (`Middleware.BearerHeader`). Its `createTask` also sends `description: null` when no description is given (line 54). That path is not modelled.
- React and browser behaviour is left out: rendering, `useMemo` caching, `useEffect`, router navigation, token storage, `touched` state, and the `setTimeout`/`alert` in the login page's `handleSubmit`.
- The dashboard's network paths are left out: fetch errors, the 401 redirect, and `fetchTasks`. Only the pure slices are modelled.
- Whitespace is a fixed character set, the one JavaScript defines for `\s` and `trim` as of current Unicode. Unicode normalisation is not modelled.

## Findings

| source | as written | input that shows it | evidently intended | confidence | as-written member | corrected member |
|---|---|---|---|---|---|---|
| src/app/dashboard/page.tsx:110 | A blank description is sent as `description: null`, but `createTaskSchema` declares `z.string().optional()` (src/types/task.ts:5), which rejects `null`. | Title "Buy milk", description "": the guard lets the form through, and `POST /api/tasks` answers 400 "Dados inválidos". | A task without a description is created. The blank field should be left out of the body, or the schema should accept `null`. | not executed | `Dashboard.BlankDescriptionRejected` | `Dashboard.RequestBodyAccepted` |
