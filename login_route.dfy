/** `POST /api/auth/login` (src/app/api/auth/login/route.ts): validate, look the
    user up by email, compare the password, sign a token. It only reads the user
    table, so it is a function of that table. `loginSchema` lives in
    `@/types/auth`, which is not part of this model: the handler receives the
    outcome of `loginSchema.safeParse(body)`. */
module LoginRoute {
  import opened Wrappers
  import opened Db
  import opened Http
  import opened Middleware

  datatype Credentials = Credentials(email: string, password: string)

  /** The one answer for an unknown email and for a wrong password. */
  const BadCredentials := Response(401, ErrorBody("Email ou senha inválidos"))

  /** `compare` is `comparePasswords` (bcrypt), `sign` is `generateToken`
      (jsonwebtoken under the process secret), `thrown` names the call inside the
      `try` that throws, if one does: `findUnique`, `comparePasswords` or
      `generateToken`. */
  function Post(users: seq<User>, parsed: Option<Credentials>, compare: (string, string) -> bool,
                sign: Payload -> string, thrown: Option<Call>): (r: Response)
    ensures r.status in {200, 400, 401, 500}
    ensures r.status == 400 <==> parsed.None?
    ensures r.status == 200 <==>
      && parsed.Some? && FindByEmail(users, parsed.value.email).Some?
      && compare(parsed.value.password, FindByEmail(users, parsed.value.email).value.password)
      && thrown !in {Some(FindUnique), Some(ComparePasswords), Some(GenerateToken)}
    ensures r.status == 200 ==>
      var u := FindByEmail(users, parsed.value.email).value;
      r.body == TokenBody(sign(Payload(u.id, u.email)), ToPublic(u))
    ensures r.status == 401 ==> r == BadCredentials
    ensures r.status == 500 ==> r == InternalError && thrown.Some?
    ensures r == InternalError <==>
      && parsed.Some?
      && (|| thrown == Some(FindUnique)
          || (&& FindByEmail(users, parsed.value.email).Some?
              && (|| thrown == Some(ComparePasswords)
                  || (&& compare(parsed.value.password, FindByEmail(users, parsed.value.email).value.password)
                      && thrown == Some(GenerateToken)))))
  {
    if parsed.None? then InvalidData
    else if thrown == Some(FindUnique) then InternalError
    else
      match FindByEmail(users, parsed.value.email)
      case None => BadCredentials
      case Some(user) =>
        if thrown == Some(ComparePasswords) then InternalError
        else if !compare(parsed.value.password, user.password) then BadCredentials
        else if thrown == Some(GenerateToken) then InternalError
        else Response(200, TokenBody(sign(Payload(user.id, user.email)), ToPublic(user)))
  }

  /** An unknown email and a known email with the wrong password get the same
      status and the same body, so a caller cannot tell which emails exist. */
  lemma UniformCredentialFailure(users: seq<User>, users': seq<User>, c: Credentials, c': Credentials,
                                 compare: (string, string) -> bool, sign: Payload -> string)
    requires FindByEmail(users, c.email).None?
    requires FindByEmail(users', c'.email).Some? && !compare(c'.password, FindByEmail(users', c'.email).value.password)
    ensures Post(users, Some(c), compare, sign, None) == Post(users', Some(c'), compare, sign, None) == BadCredentials
  {
  }

  /** Right after a registration appends `u` (its email not taken before), logging
      in with the password whose hash was stored succeeds: the token is signed
      over `{ userId: u.id, email: u.email }` and the user comes back without the
      password. `compare(password, u.password)` is bcrypt's promise for a hash of
      `password`. */
  lemma LoginAfterRegister(users: seq<User>, u: User, password: string,
                           compare: (string, string) -> bool, sign: Payload -> string)
    requires EmailsUnique(users) && FindByEmail(users, u.email).None?
    requires compare(password, u.password)
    ensures Post(users + [u], Some(Credentials(u.email, password)), compare, sign, None)
            == Response(200, TokenBody(sign(Payload(u.id, u.email)), PublicUser(u.id, u.name, u.email)))
  {
    var all := users + [u];
    assert EmailsUnique(all) by {
      forall i, j | 0 <= i < j < |all| ensures all[i].email != all[j].email {
        if j == |users| {
          assert all[i] in users;
        } else {
          assert all[i] == users[i] && all[j] == users[j];
        }
      }
    }
    assert u in all by { assert all[|users|] == u; }
    FindByEmailFinds(all, u);
  }
}
