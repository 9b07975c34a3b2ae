/** `POST /api/auth/register` (src/app/api/auth/register/route.ts):
    validate, check the email is free, hash, insert, answer with the public fields.
    `registerSchema` lives in `@/types/auth`, which is not part of this model: the
    handler receives the outcome of `registerSchema.safeParse(body)`. */
module RegisterRoute {
  import opened Wrappers
  import opened Db
  import opened Http

  datatype RegisterInput = RegisterInput(name: string, email: string, password: string)

  const EmailTaken := Response(409, ErrorBody("Email já cadastrado"))
  const CreatedMessage := "Usuário criado com sucesso"

  /** `parsed` is the schema's outcome; `hashed` is what `hashPassword(password)`
      yields for this call (bcrypt salts afresh, so it is not a function of the
      password); `thrown` names the call inside the `try` that throws, if one
      does: `findUnique`, `hashPassword` or `user.create`. */
  method Post(db: Store, parsed: Option<RegisterInput>, hashed: string, thrown: Option<Call>)
    returns (resp: Response)
    requires db.Valid()
    modifies db`users, db`nextUserId
    ensures db.Valid() && db.tasks == old(db.tasks)
    ensures parsed.None? ==> resp == InvalidData
    ensures parsed.Some? && thrown == Some(FindUnique) ==> resp == InternalError
    ensures parsed.Some? && thrown != Some(FindUnique) && FindByEmail(old(db.users), parsed.value.email).Some? ==>
      resp == EmailTaken
    ensures (parsed.Some? && FindByEmail(old(db.users), parsed.value.email).None? &&
             thrown in {Some(HashPassword), Some(CreateUser)}) ==> resp == InternalError
    ensures resp.status == 201 <==>
      && parsed.Some? && FindByEmail(old(db.users), parsed.value.email).None?
      && thrown !in {Some(FindUnique), Some(HashPassword), Some(CreateUser)}
    ensures resp.status == 201 ==>
      var user := User(old(db.nextUserId), parsed.value.name, parsed.value.email, hashed);
      && db.users == old(db.users) + [user]
      && resp.body == CreatedUserBody(CreatedMessage, ToPublic(user))
    ensures resp.status == 201 ==> db.nextUserId == old(db.nextUserId) + 1
    ensures resp.status != 201 ==> db.users == old(db.users) && db.nextUserId == old(db.nextUserId)
    ensures resp.status in {201, 400, 409, 500}
  {
    if parsed.None? {
      return InvalidData;
    }
    var input := parsed.value;
    if thrown == Some(FindUnique) {
      return InternalError;
    }
    var existing := FindByEmail(db.users, input.email);
    if existing.Some? {
      return EmailTaken;
    }
    if thrown == Some(HashPassword) || thrown == Some(CreateUser) {
      return InternalError;
    }
    var user := db.CreateUser(input.name, input.email, hashed);
    if user.None? {
      return InternalError;
    }
    resp := Response(201, CreatedUserBody(CreatedMessage, ToPublic(user.value)));
  }
}
