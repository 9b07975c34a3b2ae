/** The JSON responses the route handlers produce (`NextResponse.json(body, { status })`)
    and the fixed messages they carry. */
module Http {
  import opened Db

  datatype Body =
    | ErrorBody(error: string)
      /** `{ error, details }` for a failed schema; zod's `details` are not represented. */
    | ValidationError(error: string)
    | TaskListBody(tasks: seq<TaskView>)
    | TaskBody(task: TaskView)
    | CreatedUserBody(message: string, user: PublicUser)
    | TokenBody(token: string, user: PublicUser)

  datatype Response = Response(status: int, body: Body)

  const InvalidDataMessage := "Dados inválidos"
  const InternalErrorMessage := "Erro interno do servidor"

  /** 400 for a body the schema rejects. */
  const InvalidData := Response(400, ValidationError(InvalidDataMessage))

  /** 500 for anything thrown inside a handler's `try`. */
  const InternalError := Response(500, ErrorBody(InternalErrorMessage))

  /** The calls inside a handler's `try` that the model names (`findUnique`,
      `hashPassword`, `user.create`, `comparePasswords`, `generateToken`); a
      request names at most one of them as the one that throws. */
  datatype Call = FindUnique | HashPassword | CreateUser | ComparePasswords | GenerateToken
}
