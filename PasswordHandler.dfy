/**
 * The password-reset protocol: POST /passwords/reset-request issues a
 * 32-byte random token for a known email, records it with a 24-hour expiry
 * and mails a reset link; POST /passwords/reset exchanges a recorded token
 * for a new password hash and then deletes the token.
 *
 * As in the user handler, each endpoint is first a function of the store's
 * contents and then a method of `PasswordHandler` proved to match it. The
 * handler's mailer is assumed to hand its arguments to SendMail with the
 * configured mail settings; the calls it makes are kept in `outbox`.
 */
module PasswordHandler {
  import opened Wrappers
  import opened Text
  import opened Binding
  import opened Http
  import opened Models
  import Store
  import Bcrypt
  import Mail
  import AuthHandler
  import Jwt

  /** The settings the handler reads from its configuration: the site's base URL and the mail server. */
  datatype ResetSettings = ResetSettings(baseURL: string, mail: Mail.MailConfig)

  const ResetTokenBytes: nat := 32
  const ResetTokenLifetime: int := 24 * 60 * 60

  const ResetMailSent: string := "パスワードリセットメールを送信しました"
  const TokenFailed: string := "トークンの生成に失敗しました"
  const MailFailed: string := "メールの送信に失敗しました"
  const ResetSubject: string := "パスワードリセットのリクエスト"
  const InvalidToken: string := "無効なトークンです"
  const HashFailed: string := "パスワードのハッシュ化に失敗しました"
  const PasswordUpdated: string := "パスワードを更新しました"

  datatype RequestPasswordResetRequest = RequestPasswordResetRequest(email: string)

  datatype ResetPasswordRequest = ResetPasswordRequest(token: string, password: string)

  /** Email `required,email`. */
  function ValidateResetRequest(r: RequestPasswordResetRequest): (errs: seq<FieldError>)
    ensures errs == [] <==> r.email != "" && IsEmail(r.email)
  {
    var fs := [Field("Email", r.email, false, [Required, Email])];
    assert FieldOk(fs[0]) <==> r.email != "" && IsEmail(r.email);
    Validate("RequestPasswordResetRequest", fs)
  }

  /** Token `required`; Password `required,min=8`. */
  function ValidateReset(r: ResetPasswordRequest): (errs: seq<FieldError>)
    ensures errs == [] <==> r.token != "" && |r.password| >= 8
  {
    var fs := [Field("Token", r.token, false, [Required]), Field("Password", r.password, false, [Required, Min(8)])];
    assert FieldOk(fs[0]) <==> r.token != "";
    assert FieldOk(fs[1]) <==> r.password != "" && |r.password| >= 8;
    Validate("ResetPasswordRequest", fs)
  }

  function ResetURL(baseURL: string, token: string): string
  {
    baseURL + "/reset-password?token=" + token
  }

  /** Which external step fails: the lookup, crypto/rand, the insert, the mailer. */
  datatype RequestFaults = RequestFaults(lookup: Store.Fault, random: bool, insert: Store.Fault, mail: bool)

  /** A request's outcome: the store's new contents, the mail handed to the mailer (if any), the answer. */
  datatype RequestOutcome = RequestOutcome(db: Store.Db, mail: Option<Mail.SmtpCall>, response: Response<()>)

  /**
   * RequestPasswordReset against the store's contents: the users stay as
   * they are, at most one reset record is added, and a mail is handed over
   * only once its token is recorded.
   */
  function RequestPasswordResetOn(d: Store.Db, s: ResetSettings, req: RequestPasswordResetRequest,
                                  random: seq<Byte>, now: int, f: RequestFaults): (o: RequestOutcome)
    requires |random| == ResetTokenBytes
    ensures o.response.status in {StatusOK, StatusBadRequest, StatusInternalServerError}
    ensures o.response.status == StatusBadRequest <==> ValidateResetRequest(req) != []
    ensures o.db.users == d.users
    ensures forall t :: t in d.resets ==> t in o.db.resets && o.db.resets[t] == d.resets[t]
    ensures o.db.resets.Keys <= d.resets.Keys + {HexEncode(random)}
    ensures o.mail.Some? ==> HexEncode(random) in o.db.resets && HexEncode(random) !in d.resets
  {
    var errs := ValidateResetRequest(req);
    if errs != [] then RequestOutcome(d, None, Error(StatusBadRequest, ErrorText(errs)))
    else match d.GetUserByEmail(req.email, f.lookup)
      case NoRows => RequestOutcome(d, None, Message(StatusOK, ResetMailSent))
      case QueryFailed(message) => RequestOutcome(d, None, Error(StatusInternalServerError, message))
      case Found(user) =>
        if f.random then RequestOutcome(d, None, Error(StatusInternalServerError, TokenFailed))
        else
          var token := HexEncode(random);
          var (d1, err) := d.CreatePasswordReset(
            Store.CreatePasswordResetParams(user.id, token, now + ResetTokenLifetime), now, f.insert);
          if err.Some? then RequestOutcome(d1, None, Error(StatusInternalServerError, err.value))
          else
            var call := Mail.SendMailCall(s.mail, user.email, ResetSubject,
                                          Mail.GeneratePasswordResetEmail(ResetURL(s.baseURL, token)));
            if f.mail then RequestOutcome(d1, Some(call), Error(StatusInternalServerError, MailFailed))
            else RequestOutcome(d1, Some(call), Message(StatusOK, ResetMailSent))
  }

  /** Which external step fails: the token lookup, bcrypt, the password update, the token delete. */
  datatype ResetFaults = ResetFaults(lookup: Store.Fault, hash: bool, update: Store.Fault, delete: Store.Fault)

  /**
   * ResetPassword against the store's contents: no user row is added or
   * removed, and the only record that can go is the presented token's.
   */
  function ResetPasswordOn(d: Store.Db, req: ResetPasswordRequest, salt: seq<Byte>, now: int, f: ResetFaults)
    : (r: (Store.Db, Response<()>))
    ensures r.1.status in {StatusOK, StatusBadRequest, StatusInternalServerError}
    ensures r.0.users.Keys == d.users.Keys && r.0.resets.Keys <= d.resets.Keys
    ensures r.0.resets == d.resets || r.0.resets == d.resets - {req.token}
    ensures r.1.status == StatusBadRequest ==> r.0 == d
    ensures r.1.status == StatusOK ==> req.token in d.resets && r.0.resets == d.resets - {req.token}
  {
    var errs := ValidateReset(req);
    if errs != [] then (d, Error(StatusBadRequest, ErrorText(errs)))
    else match d.GetPasswordResetByToken(req.token, f.lookup)
      case NoRows => (d, Error(StatusBadRequest, InvalidToken))
      case QueryFailed(message) => (d, Error(StatusInternalServerError, message))
      case Found(reset) =>
        if f.hash then (d, Error(StatusInternalServerError, HashFailed))
        else
          var (d1, err) := d.UpdateUserPassword(reset.userID, Bcrypt.GenerateFromPassword(req.password, salt), now, f.update);
          if err.Some? then (d1, Error(StatusInternalServerError, err.value))
          else
            var (d2, err2) := d1.DeletePasswordReset(req.token, f.delete);
            if err2.Some? then (d2, Error(StatusInternalServerError, err2.value))
            else (d2, Message(StatusOK, PasswordUpdated))
  }

  // -----------------------------------------------------------------------
  // What the reset request promises

  /** An unknown email gets the very answer a sent mail gets, and nothing is stored or mailed. */
  lemma UnknownEmailLooksSent(d: Store.Db, s: ResetSettings, req: RequestPasswordResetRequest,
                              random: seq<Byte>, now: int, f: RequestFaults)
    requires |random| == ResetTokenBytes && d.Valid()
    requires ValidateResetRequest(req) == [] && f.lookup.None?
    requires !Store.EmailInUse(d.users, req.email)
    ensures RequestPasswordResetOn(d, s, req, random, now, f) == RequestOutcome(d, None, Message(StatusOK, ResetMailSent))
  {
    Store.GetUserByEmailIsExact(d, req.email);
  }

  /**
   * For a known email the new record holds the user's id, the hex encoding of
   * the random bytes (64 lower-case hex digits that decode back to them) and
   * an expiry 24 hours on; every other record stays, and the users are untouched.
   */
  lemma KnownEmailRecordsToken(d: Store.Db, s: ResetSettings, req: RequestPasswordResetRequest,
                               random: seq<Byte>, now: int, f: RequestFaults, id: int)
    requires |random| == ResetTokenBytes && d.Valid()
    requires ValidateResetRequest(req) == [] && f.lookup.None? && !f.random && f.insert.None?
    requires id in d.users && d.users[id].email == req.email
    requires HexEncode(random) !in d.resets
    ensures var o := RequestPasswordResetOn(d, s, req, random, now, f);
      var token := HexEncode(random);
      && o.db.users == d.users
      && o.db.resets == d.resets[token := PasswordReset(d.nextResetID, id, token, now + ResetTokenLifetime, Some(now))]
      && |token| == 64 && (forall i :: 0 <= i < |token| ==> IsLowerHex(token[i]))
      && HexDecode(token) == Some(random)
  {
    Store.GetUserByEmailIsExact(d, req.email);
    HexEncodeIsLowerHex(random);
    HexRoundTrip(random);
  }

  /**
   * For a known email the reset mail is handed over for the user's address,
   * and a mail failure is a 500 that keeps the record already stored.
   */
  lemma KnownEmailMailsLink(d: Store.Db, s: ResetSettings, req: RequestPasswordResetRequest,
                            random: seq<Byte>, now: int, f: RequestFaults, id: int)
    requires |random| == ResetTokenBytes && d.Valid()
    requires ValidateResetRequest(req) == [] && f.lookup.None? && !f.random && f.insert.None?
    requires id in d.users && d.users[id].email == req.email
    requires HexEncode(random) !in d.resets
    ensures var o := RequestPasswordResetOn(d, s, req, random, now, f);
      && o.mail == Some(Mail.SendMailCall(s.mail, d.users[id].email, ResetSubject,
                                          Mail.GeneratePasswordResetEmail(ResetURL(s.baseURL, HexEncode(random)))))
      && o.response == (if f.mail then Error(StatusInternalServerError, MailFailed) else Message(StatusOK, ResetMailSent))
  {
    Store.GetUserByEmailIsExact(d, req.email);
  }

  /**
   * The reset mail goes to the one address given, from the configured sender,
   * and its body carries exactly the base URL, the reset path and the token.
   */
  lemma ResetMailCarriesLink(s: ResetSettings, to: string, token: string)
    ensures var call := Mail.SendMailCall(s.mail, to, ResetSubject, Mail.GeneratePasswordResetEmail(ResetURL(s.baseURL, token)));
      && call.recipients == [to] && call.from == s.mail.from
      && Mail.ResetURLOf(Mail.GeneratePasswordResetEmail(ResetURL(s.baseURL, token)))
         == Some(s.baseURL + "/reset-password?token=" + token)
  {
    Mail.ResetEmailRoundTrip(ResetURL(s.baseURL, token));
  }

  /** A refused request body reaches neither the store nor the mailer. */
  lemma BadResetRequestTouchesNothing(d: Store.Db, s: ResetSettings, req: RequestPasswordResetRequest,
                                      random: seq<Byte>, now: int, f: RequestFaults)
    requires |random| == ResetTokenBytes
    requires !(req.email != "" && IsEmail(req.email))
    ensures RequestPasswordResetOn(d, s, req, random, now, f)
      == RequestOutcome(d, None, Error(StatusBadRequest, ErrorText(ValidateResetRequest(req))))
  {
  }

  /** A non-empty address without '@' (such as "invalid-email") is refused on the Email field's `email` rule. */
  lemma InvalidEmailMessage(d: Store.Db, s: ResetSettings, email: string, random: seq<Byte>, now: int, f: RequestFaults)
    requires |random| == ResetTokenBytes
    requires email != "" && '@' !in email
    ensures RequestPasswordResetOn(d, s, RequestPasswordResetRequest(email), random, now, f)
      == RequestOutcome(d, None, Error(StatusBadRequest,
           "Key: '" + "RequestPasswordResetRequest.Email" + "' Error:Field validation for '" + "Email" + "' failed on the '" + "email" + "' tag"))
  {
    var field := Field("Email", email, false, [Required, Email]);
    SplitWithoutSeparator(email, '@');
    assert !IsEmail(email);
    assert [Required, Email][1..] == [Email];
    assert FirstBroken(email, [Required, Email]) == Some(Email);
    var e := FieldError("RequestPasswordResetRequest" + "." + "Email", "Email", "email");
    assert FieldCheck("RequestPasswordResetRequest", field) == Some(e);
    assert e == FieldError("RequestPasswordResetRequest.Email", "Email", "email") by {
      assert "RequestPasswordResetRequest" + "." + "Email" == "RequestPasswordResetRequest.Email";
    }
    ValidateOne("RequestPasswordResetRequest", field);
  }

  // -----------------------------------------------------------------------
  // What the reset promises

  /** A recorded-looking token with a password of one to seven characters (such as "short") is refused on the `min` rule. */
  lemma ShortPasswordMessage(d: Store.Db, token: string, password: string, salt: seq<Byte>, now: int, f: ResetFaults)
    requires token != "" && 0 < |password| < 8
    ensures ResetPasswordOn(d, ResetPasswordRequest(token, password), salt, now, f)
      == (d, Error(StatusBadRequest,
            "Key: '" + "ResetPasswordRequest.Password" + "' Error:Field validation for '" + "Password" + "' failed on the '" + "min" + "' tag"))
  {
    var fs := [Field("Token", token, false, [Required]), Field("Password", password, false, [Required, Min(8)])];
    assert [Required, Min(8)][1..] == [Min(8)];
    assert FirstBroken(password, [Required, Min(8)]) == Some(Min(8));
    var e := FieldError("ResetPasswordRequest" + "." + "Password", "Password", "min");
    assert FieldCheck("ResetPasswordRequest", fs[1]) == Some(e);
    assert e == FieldError("ResetPasswordRequest.Password", "Password", "min") by {
      assert "ResetPasswordRequest" + "." + "Password" == "ResetPasswordRequest.Password";
    }
    assert fs == [fs[0]] + [fs[1]];
    ValidateConcat("ResetPasswordRequest", [fs[0]], [fs[1]]);
    ValidateOne("ResetPasswordRequest", fs[0]);
    ValidateOne("ResetPasswordRequest", fs[1]);
  }

  /** A token that is not recorded is refused and nothing changes. */
  lemma UnknownTokenRefused(d: Store.Db, req: ResetPasswordRequest, salt: seq<Byte>, now: int, f: ResetFaults)
    requires ValidateReset(req) == [] && f.lookup.None? && req.token !in d.resets
    ensures ResetPasswordOn(d, req, salt, now, f) == (d, Error(StatusBadRequest, InvalidToken))
  {
  }

  /** A password under 8 characters is refused before the store is consulted. */
  lemma ShortPasswordRefused(d: Store.Db, req: ResetPasswordRequest, salt: seq<Byte>, now: int, f: ResetFaults)
    requires |req.password| < 8
    ensures ResetPasswordOn(d, req, salt, now, f).0 == d
    ensures ResetPasswordOn(d, req, salt, now, f).1.status == StatusBadRequest
  {
  }

  /** If the password update fails the token is kept, so the reset can be tried again. */
  lemma FailedUpdateKeepsToken(d: Store.Db, req: ResetPasswordRequest, salt: seq<Byte>, now: int, f: ResetFaults)
    requires ValidateReset(req) == [] && f.lookup.None? && req.token in d.resets && !f.hash && f.update.Some?
    ensures ResetPasswordOn(d, req, salt, now, f).0 == d
    ensures ResetPasswordOn(d, req, salt, now, f).1 == Error(StatusInternalServerError, f.update.value)
  {
  }

  /**
   * A successful reset replaces the hash of the token's user and nobody
   * else's, with the hash of the new password, and deletes the token.
   */
  lemma ResetReplacesHash(d: Store.Db, req: ResetPasswordRequest, salt: seq<Byte>, now: int, f: ResetFaults)
    requires ResetPasswordOn(d, req, salt, now, f).1.status == StatusOK
    ensures var d2 := ResetPasswordOn(d, req, salt, now, f).0;
      var uid := d.resets[req.token].userID;
      && req.token in d.resets
      && d2.resets == d.resets - {req.token}
      && d2.users.Keys == d.users.Keys
      && (forall id :: id in d.users && id != uid ==> d2.users[id] == d.users[id])
      && (uid in d.users ==> d2.users[uid] == d.users[uid].(passwordHash := Bcrypt.GenerateFromPassword(req.password, salt), updatedAt := now))
  {
  }

  /** The same token cannot be used twice. */
  lemma TokenIsSingleUse(d: Store.Db, req: ResetPasswordRequest, salt: seq<Byte>, salt2: seq<Byte>, now: int,
                         later: int, f: ResetFaults, f2: ResetFaults)
    requires ResetPasswordOn(d, req, salt, now, f).1.status == StatusOK
    requires f2.lookup.None?
    ensures ResetPasswordOn(ResetPasswordOn(d, req, salt, now, f).0, req, salt2, later, f2).1 == Error(StatusBadRequest, InvalidToken)
  {
  }

  /** After a reset the account takes the new password at login and refuses the old one. */
  lemma LoginAfterReset(d: Store.Db, req: ResetPasswordRequest, salt: seq<Byte>, now: int, f: ResetFaults,
                        login: AuthHandler.LoginRequest, later: int)
    requires d.Valid() && ResetPasswordOn(d, req, salt, now, f).1.status == StatusOK
    requires d.resets[req.token].userID in d.users
    requires login.email == d.users[d.resets[req.token].userID].email
    requires AuthHandler.ValidateLogin(login) == []
    ensures var d2 := ResetPasswordOn(d, req, salt, now, f).0;
      (AuthHandler.Login(d2, login, None, false, later).status == StatusOK <==> login.password == req.password)
  {
    var uid := d.resets[req.token].userID;
    var d2 := ResetPasswordOn(d, req, salt, now, f).0;
    ResetReplacesHash(d, req, salt, now, f);
    Store.WritesKeepValid(d, now, f.update);
    var d1 := d.UpdateUserPassword(uid, Bcrypt.GenerateFromPassword(req.password, salt), now, f.update).0;
    Store.WritesKeepValid(d1, now, f.delete);
    assert d2 == d1.DeletePasswordReset(req.token, f.delete).0;
    assert d2.Valid();
    assert uid in d2.users && d2.users[uid].email == login.email;
    if login.password == req.password {
      AuthHandler.RightPasswordAdmitted(d2, login, uid, later);
    } else {
      AuthHandler.WrongPasswordRefused(d2, login, uid, false, later);
    }
  }

  // -----------------------------------------------------------------------
  // The handler against the mutable store

  class PasswordHandler {
    const queries: Store.Tables
    const settings: ResetSettings
    /** The SendMail calls made so far, failed ones included. */
    var outbox: seq<Mail.SmtpCall>

    constructor (queries: Store.Tables, settings: ResetSettings)
      ensures this.queries == queries && this.settings == settings && outbox == []
    {
      this.queries := queries;
      this.settings := settings;
      outbox := [];
    }

    method RequestPasswordReset(req: RequestPasswordResetRequest, random: seq<Byte>, now: int, f: RequestFaults)
      returns (r: Response<()>)
      requires |random| == ResetTokenBytes
      requires queries.Valid()
      modifies this, queries
      ensures queries.Valid()
      ensures var o := RequestPasswordResetOn(old(queries.State()), settings, req, random, now, f);
        && queries.State() == o.db && r == o.response
        && outbox == old(outbox) + (if o.mail.Some? then [o.mail.value] else [])
    {
      var errs := ValidateResetRequest(req);
      if errs != [] { return Error(StatusBadRequest, ErrorText(errs)); }
      var user := queries.GetUserByEmail(req.email, f.lookup);
      if user.NoRows? { return Message(StatusOK, ResetMailSent); }
      if user.QueryFailed? { return Error(StatusInternalServerError, user.message); }
      if f.random { return Error(StatusInternalServerError, TokenFailed); }
      var token := HexEncode(random);
      var err := queries.CreatePasswordReset(
        Store.CreatePasswordResetParams(user.row.id, token, now + ResetTokenLifetime), now, f.insert);
      if err.Some? { return Error(StatusInternalServerError, err.value); }
      var resetURL := settings.baseURL + "/reset-password?token=" + token;
      var body := Mail.GeneratePasswordResetEmail(resetURL);
      outbox := outbox + [Mail.SendMailCall(settings.mail, user.row.email, ResetSubject, body)];
      if f.mail { return Error(StatusInternalServerError, MailFailed); }
      r := Message(StatusOK, ResetMailSent);
    }

    method ResetPassword(req: ResetPasswordRequest, salt: seq<Byte>, now: int, f: ResetFaults) returns (r: Response<()>)
      requires queries.Valid()
      modifies queries
      ensures queries.Valid()
      ensures (queries.State(), r) == ResetPasswordOn(old(queries.State()), req, salt, now, f)
    {
      var errs := ValidateReset(req);
      if errs != [] { return Error(StatusBadRequest, ErrorText(errs)); }
      var reset := queries.GetPasswordResetByToken(req.token, f.lookup);
      if reset.NoRows? { return Error(StatusBadRequest, InvalidToken); }
      if reset.QueryFailed? { return Error(StatusInternalServerError, reset.message); }
      if f.hash { return Error(StatusInternalServerError, HashFailed); }
      var hashed := Bcrypt.GenerateFromPassword(req.password, salt);
      var err := queries.UpdateUserPassword(reset.row.userID, hashed, now, f.update);
      if err.Some? { return Error(StatusInternalServerError, err.value); }
      err := queries.DeletePasswordReset(req.token, f.delete);
      if err.Some? { return Error(StatusInternalServerError, err.value); }
      r := Message(StatusOK, PasswordUpdated);
    }
  }
}
