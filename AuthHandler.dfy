/**
 * POST /auth/login: validate the body, look the user up by email, check the
 * password against the stored hash and answer with a session token and the
 * user's public profile. The handler only reads the store.
 */
module AuthHandler {
  import opened Wrappers
  import opened Binding
  import opened Http
  import opened Models
  import Store
  import Bcrypt
  import Jwt

  datatype LoginRequest = LoginRequest(email: string, password: string)

  /** Email `required,email`; Password `required`. */
  function LoginFields(r: LoginRequest): seq<Field>
  {
    [ Field("Email", r.email, false, [Required, Email]),
      Field("Password", r.password, false, [Required]) ]
  }

  function ValidateLogin(r: LoginRequest): (errs: seq<FieldError>)
    ensures errs == [] <==> r.email != "" && IsEmail(r.email) && r.password != ""
  {
    var fs := LoginFields(r);
    assert FieldOk(fs[0]) <==> r.email != "" && IsEmail(r.email);
    assert FieldOk(fs[1]) <==> r.password != "";
    Validate("LoginRequest", fs)
  }

  /** The `user` object of LoginResponse. */
  datatype LoginUser = LoginUser(id: int, email: string, firstName: string, lastName: string)

  datatype LoginResponse = LoginResponse(token: Jwt.Token, user: LoginUser)

  const InvalidCredentials: string := "メールアドレスまたはパスワードが正しくありません"
  const TokenFailed: string := "トークンの生成に失敗しました"

  /**
   * The answer once the request has bound: `lookup` is what GetUserByEmail
   * returned and `signingFails` whether signing the token failed.
   */
  function Decide(req: LoginRequest, lookup: Store.Lookup<User>, signingFails: bool, now: int): (r: Response<LoginResponse>)
    ensures r.status == StatusOK <==>
      lookup.Found? && Bcrypt.CompareHashAndPassword(lookup.row.passwordHash, req.password) && !signingFails
    ensures r.status == StatusUnauthorized <==>
      lookup.NoRows? || (lookup.Found? && !Bcrypt.CompareHashAndPassword(lookup.row.passwordHash, req.password))
    ensures r.status == StatusUnauthorized ==> r == Error(StatusUnauthorized, InvalidCredentials)
    ensures r.status == StatusOK ==>
      var u := lookup.row;
      r.body == Payload(LoginResponse(Jwt.GenerateToken(u.id, now), LoginUser(u.id, u.email, u.firstName, u.lastName)))
    ensures r.status in {StatusOK, StatusUnauthorized, StatusInternalServerError}
    ensures r.body.Payload? <==> r.status == StatusOK
  {
    match lookup
    case NoRows => Error(StatusUnauthorized, InvalidCredentials)
    case QueryFailed(message) => Error(StatusInternalServerError, message)
    case Found(user) =>
      if !Bcrypt.CompareHashAndPassword(user.passwordHash, req.password) then
        Error(StatusUnauthorized, InvalidCredentials)
      else if signingFails then
        Error(StatusInternalServerError, TokenFailed)
      else
        Response(StatusOK, Payload(LoginResponse(Jwt.GenerateToken(user.id, now),
                                                 LoginUser(user.id, user.email, user.firstName, user.lastName))))
  }

  /** Login against the store's contents `d`; `fault` is the lookup's own failure, if any. */
  function Login(d: Store.Db, req: LoginRequest, fault: Store.Fault, signingFails: bool, now: int): (r: Response<LoginResponse>)
    ensures ValidateLogin(req) != [] ==> r.status == StatusBadRequest && r.body.ErrorBody?
    ensures ValidateLogin(req) == [] ==> r.status != StatusBadRequest
  {
    var errs := ValidateLogin(req);
    if errs != [] then Error(StatusBadRequest, ErrorText(errs))
    else Decide(req, d.GetUserByEmail(req.email, fault), signingFails, now)
  }

  /** A body that does not bind is refused the same way whatever the store holds. */
  lemma BadRequestIgnoresStore(d1: Store.Db, d2: Store.Db, req: LoginRequest, f1: Store.Fault, f2: Store.Fault,
                               s1: bool, s2: bool, now: int)
    requires !(req.email != "" && IsEmail(req.email) && req.password != "")
    ensures Login(d1, req, f1, s1, now) == Login(d2, req, f2, s2, now)
    ensures Login(d1, req, f1, s1, now) == Error(StatusBadRequest, ErrorText(ValidateLogin(req)))
  {
  }

  /** A non-empty address without '@' (such as "invalid-email") is refused on the Email field's `email` rule. */
  lemma InvalidEmailMessage(d: Store.Db, email: string, password: string, fault: Store.Fault, signingFails: bool, now: int)
    requires email != "" && '@' !in email && password != ""
    ensures Login(d, LoginRequest(email, password), fault, signingFails, now)
      == Error(StatusBadRequest, "Key: '" + "LoginRequest.Email" + "' Error:Field validation for '" + "Email" + "' failed on the '" + "email" + "' tag")
  {
    var fs := LoginFields(LoginRequest(email, password));
    Text.SplitWithoutSeparator(email, '@');
    assert !IsEmail(email);
    assert [Required, Email][1..] == [Email];
    assert FirstBroken(email, [Required, Email]) == Some(Email);
    var e := FieldError("LoginRequest" + "." + "Email", "Email", "email");
    assert FieldCheck("LoginRequest", fs[0]) == Some(e);
    assert e == FieldError("LoginRequest.Email", "Email", "email") by {
      assert "LoginRequest" + "." + "Email" == "LoginRequest.Email";
    }
    assert fs == [fs[0]] + [fs[1]];
    ValidateConcat("LoginRequest", [fs[0]], [fs[1]]);
    ValidateOne("LoginRequest", fs[0]);
    ValidateOne("LoginRequest", fs[1]);
  }

  /** A well-formed address with no password is refused on the Password field's `required` rule alone. */
  lemma MissingPasswordMessage(d: Store.Db, email: string, fault: Store.Fault, signingFails: bool, now: int)
    requires email != "" && IsEmail(email)
    ensures Login(d, LoginRequest(email, ""), fault, signingFails, now)
      == Error(StatusBadRequest, "Key: '" + "LoginRequest.Password" + "' Error:Field validation for '" + "Password" + "' failed on the '" + "required" + "' tag")
  {
    var fs := LoginFields(LoginRequest(email, ""));
    assert FirstBroken("", [Required]) == Some(Required);
    var e := FieldError("LoginRequest" + "." + "Password", "Password", "required");
    assert FieldCheck("LoginRequest", fs[1]) == Some(e);
    assert e == FieldError("LoginRequest.Password", "Password", "required") by {
      assert "LoginRequest" + "." + "Password" == "LoginRequest.Password";
    }
    assert fs == [fs[0]] + [fs[1]];
    ValidateConcat("LoginRequest", [fs[0]], [fs[1]]);
    ValidateOne("LoginRequest", fs[0]);
    ValidateOne("LoginRequest", fs[1]);
  }

  /** An email nobody holds is refused with the common credentials message. */
  lemma UnknownEmailRefused(d: Store.Db, req: LoginRequest, signingFails: bool, now: int)
    requires d.Valid() && ValidateLogin(req) == []
    requires !Store.EmailInUse(d.users, req.email)
    ensures Login(d, req, None, signingFails, now) == Error(StatusUnauthorized, InvalidCredentials)
  {
    Store.GetUserByEmailIsExact(d, req.email);
  }

  /** A wrong password for a known email is refused with exactly the same answer. */
  lemma WrongPasswordRefused(d: Store.Db, req: LoginRequest, id: int, signingFails: bool, now: int)
    requires d.Valid() && ValidateLogin(req) == []
    requires id in d.users && d.users[id].email == req.email
    requires !Bcrypt.CompareHashAndPassword(d.users[id].passwordHash, req.password)
    ensures Login(d, req, None, signingFails, now) == Error(StatusUnauthorized, InvalidCredentials)
  {
    Store.GetUserByEmailIsExact(d, req.email);
  }

  /** The right password for a known email yields that user's token and profile. */
  lemma RightPasswordAdmitted(d: Store.Db, req: LoginRequest, id: int, now: int)
    requires d.Valid() && ValidateLogin(req) == []
    requires id in d.users && d.users[id].email == req.email
    requires Bcrypt.CompareHashAndPassword(d.users[id].passwordHash, req.password)
    ensures var u := d.users[id];
      Login(d, req, None, false, now)
        == Response(StatusOK, Payload(LoginResponse(Jwt.GenerateToken(id, now), LoginUser(id, u.email, u.firstName, u.lastName))))
    ensures Jwt.ValidateToken(Jwt.Decoded(Login(d, req, None, false, now).body.value.token), now).value.userID == id
  {
    Store.GetUserByEmailIsExact(d, req.email);
    Jwt.GeneratedTokenValidates(id, now, now);
  }

  /** A failed lookup is a server error, never a refusal of the credentials. */
  lemma LookupFailureIsServerError(d: Store.Db, req: LoginRequest, message: string, signingFails: bool, now: int)
    requires ValidateLogin(req) == []
    ensures Login(d, req, Some(message), signingFails, now) == Error(StatusInternalServerError, message)
  {
  }

  /** The account status plays no part in the answer. */
  lemma StatusIgnored(req: LoginRequest, u: User, status: NullUsersStatus, signingFails: bool, now: int)
    ensures Decide(req, Store.Found(u), signingFails, now) == Decide(req, Store.Found(u.(status := status)), signingFails, now)
  {
  }
}
