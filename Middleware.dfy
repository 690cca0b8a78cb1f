/**
 * AuthRequired: the bearer-token gate in front of the protected routes. It
 * either aborts the chain with a 401 or lets it continue with the token's
 * user id stored under "userID". Decoding the token text is the parameter
 * `parse`; what is accepted afterwards is Jwt.ValidateToken.
 */
module Middleware {
  import opened Wrappers
  import opened Text
  import opened Http
  import Jwt

  const UserIDKey: string := "userID"

  const MissingHeader: string := "認証ヘッダーがありません"
  const BadScheme: string := "無効な認証形式です"
  const BadToken: string := "無効なトークンです"

  /** c.Abort() after a JSON answer, or c.Next() with the context values set so far. */
  datatype Outcome = Abort(response: Response<()>) | Next(context: map<string, int>)

  /** The token of a header that splits on ' ' into exactly "Bearer" and one more piece. */
  function BearerToken(header: string): Option<string>
  {
    var parts := Split(header, ' ');
    if |parts| != 2 || parts[0] != "Bearer" then None else Some(parts[1])
  }

  /** The headers with a token are exactly "Bearer " followed by a token without spaces. */
  lemma BearerTokenShape(header: string, token: string)
    ensures BearerToken(header) == Some(token) <==> header == "Bearer " + token && ' ' !in token
  {
    if header == "Bearer " + token && ' ' !in token {
      assert header == "Bearer" + [' '] + token;
      SplitAtFirstSeparator("Bearer", token, ' ');
      SplitWithoutSeparator(token, ' ');
      assert Split(header, ' ') == ["Bearer", token];
    }
    if BearerToken(header) == Some(token) {
      var parts := Split(header, ' ');
      assert parts == ["Bearer", token];
      JoinSplit(header, ' ');
      assert Join(parts, ' ') == "Bearer" + [' '] + Join(parts[1..], ' ');
      assert parts[1..] == [token];
      SplitPiecesHaveNoSeparator(header, ' ');
      assert parts[1] == token;
    }
  }

  /** A header with a token starts with "Bearer " and continues without spaces. */
  lemma BearerTokenPrefix(header: string)
    ensures BearerToken(header).Some? ==> |header| >= 7 && header[..7] == "Bearer " && ' ' !in header[7..]
  {
    if BearerToken(header).Some? {
      var t := BearerToken(header).value;
      BearerTokenShape(header, t);
      assert header[7..] == t;
    }
  }

  function AuthRequired(header: string, parse: string -> Jwt.Parsed, now: int, context: map<string, int>): (o: Outcome)
    ensures o.Abort? ==> o.response.status == StatusUnauthorized && o.response.body.ErrorBody?
    ensures o.Next? ==> o.context.Keys == context.Keys + {UserIDKey}
    ensures o.Next? ==> forall k :: k in context && k != UserIDKey ==> o.context[k] == context[k]
  {
    if header == "" then Abort(Error(StatusUnauthorized, MissingHeader))
    else match BearerToken(header)
      case None => Abort(Error(StatusUnauthorized, BadScheme))
      case Some(token) =>
        match Jwt.ValidateToken(parse(token), now)
        case Err(_) => Abort(Error(StatusUnauthorized, BadToken))
        case Ok(claims) => Next(context[UserIDKey := claims.userID])
  }

  /** No header: refused before anything else is looked at. */
  lemma MissingHeaderRefused(parse: string -> Jwt.Parsed, now: int, context: map<string, int>)
    ensures AuthRequired("", parse, now, context) == Abort(Error(StatusUnauthorized, MissingHeader))
  {
  }

  /** A header not of the form "Bearer <token>" is refused as a bad scheme, whatever the token function says. */
  lemma BadSchemeRefused(header: string, parse: string -> Jwt.Parsed, now: int, context: map<string, int>)
    requires header != ""
    requires |header| < 7 || header[..7] != "Bearer " || ' ' in header[7..]
    ensures AuthRequired(header, parse, now, context) == Abort(Error(StatusUnauthorized, BadScheme))
  {
    BearerTokenPrefix(header);
  }

  /**
   * A well-formed header is judged by its token alone: refused when the token
   * does not validate, otherwise the chain continues with its user id.
   */
  lemma BearerHeaderJudgedByToken(token: string, parse: string -> Jwt.Parsed, now: int, context: map<string, int>)
    requires ' ' !in token
    ensures var o := AuthRequired("Bearer " + token, parse, now, context);
      match Jwt.ValidateToken(parse(token), now)
      case Err(_) => o == Abort(Error(StatusUnauthorized, BadToken))
      case Ok(claims) => o == Next(context[UserIDKey := claims.userID])
  {
    BearerTokenShape("Bearer " + token, token);
  }

  /** A token this server issued, presented before it expires, lets its user through. */
  lemma IssuedTokenAdmitted(token: string, userID: int, issued: int, parse: string -> Jwt.Parsed, now: int,
                            context: map<string, int>)
    requires ' ' !in token && parse(token) == Jwt.Decoded(Jwt.GenerateToken(userID, issued))
    requires issued <= now < issued + Jwt.TokenExpiration
    ensures AuthRequired("Bearer " + token, parse, now, context) == Next(context[UserIDKey := userID])
  {
    BearerTokenShape("Bearer " + token, token);
    Jwt.GeneratedTokenValidates(userID, issued, now);
  }
}
