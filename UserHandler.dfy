/**
 * The /users endpoints. Each handler's answer, and for the writing ones the
 * store's new contents, is first given as a function of the store's contents
 * (`...On`); the `UserHandler` class then runs the same steps against the
 * mutable store and is proved to match. The `*Faults` records say which
 * external step fails: a database call (its error text), bcrypt, or
 * LastInsertId.
 */
module UserHandler {
  import opened Wrappers
  import opened Text
  import opened Binding
  import opened Http
  import opened Models
  import opened Dto
  import Store
  import Bcrypt

  const InvalidUserID: string := "無効なユーザーID"
  const UserNotFound: string := "ユーザーが見つかりません"
  const HashFailed: string := "パスワードのハッシュ化に失敗しました"
  const LastInsertIdFailed: string := "ユーザーIDの取得に失敗しました"
  const ReadCreatedFailed: string := "ユーザー情報の取得に失敗しました"
  const ReadUpdatedFailed: string := "更新後のユーザー情報の取得に失敗しました"
  const UserDeleted: string := "ユーザーを削除しました"

  /** The query string: each key with its first value. */
  type Query = map<string, string>

  /** c.DefaultQuery: the value when the key is present, even if empty; otherwise the default. */
  function DefaultQuery(q: Query, key: string, default: string): string
  {
    if key in q then q[key] else default
  }

  /** toUserResponse: the row's public fields; the password hash is dropped. */
  function ToUserResponse(u: User): (r: UserResponse)
  {
    UserResponse(u.id, u.email, u.firstName, u.lastName, u.status.usersStatus, u.createdAt, u.updatedAt)
  }

  /** Two rows that differ only in their hash answer alike. */
  lemma ResponseOmitsPasswordHash(u: User, h: Bcrypt.PasswordHash)
    ensures ToUserResponse(u.(passwordHash := h)) == ToUserResponse(u)
  {
  }

  function ToUserResponses(us: seq<User>): (rs: seq<UserResponse>)
  {
    seq(|us|, i requires 0 <= i < |us| => ToUserResponse(us[i]))
  }

  /** The response struct of ListUsers and SearchUsers, filled slot by slot. */
  method BuildUsersResponse(users: seq<User>) returns (resp: UsersResponse)
    ensures |resp.users| == |users| && resp.total == |users|
    ensures forall i :: 0 <= i < |users| ==> resp.users[i] == ToUserResponse(users[i])
  {
    var slots := new UserResponse[|users|];
    for i := 0 to |users|
      invariant forall j :: 0 <= j < i ==> slots[j] == ToUserResponse(users[j])
    {
      slots[i] := ToUserResponse(users[i]);
    }
    resp := UsersResponse(slots[..], |users|);
  }

  // -----------------------------------------------------------------------
  // Search filter

  /** A row matches when its lower-cased email, first or last name contains the lower-cased query. */
  predicate Matches(u: User, query: string)
  {
    var q := ToLower(query);
    Contains(ToLower(u.email), q) || Contains(ToLower(u.firstName), q) || Contains(ToLower(u.lastName), q)
  }

  /** The matching rows, in their original order. */
  function Matching(us: seq<User>, query: string): seq<User>
    decreases |us|
  {
    if us == [] then []
    else Matching(us[..|us| - 1], query) + (if Matches(us[|us| - 1], query) then [us[|us| - 1]] else [])
  }

  /** Filtering a concatenation filters each part: the filter keeps the order. */
  lemma {:induction false} MatchingConcat(a: seq<User>, b: seq<User>, query: string)
    ensures Matching(a + b, query) == Matching(a, query) + Matching(b, query)
    decreases |b|
  {
    if b != [] {
      var b' := b[..|b| - 1];
      assert (a + b)[..|a + b| - 1] == a + b';
      assert (a + b)[|a + b| - 1] == b[|b| - 1];
      MatchingConcat(a, b', query);
      var last := if Matches(b[|b| - 1], query) then [b[|b| - 1]] else [];
      assert Matching(a + b, query) == Matching(a + b', query) + last;
      assert Matching(b, query) == Matching(b', query) + last;
    } else {
      assert a + b == a;
    }
  }

  /** A row is kept exactly when it is one of the rows and it matches. */
  lemma {:induction false} MatchingMembers(us: seq<User>, query: string, u: User)
    ensures u in Matching(us, query) <==> u in us && Matches(u, query)
    ensures |Matching(us, query)| <= |us|
    decreases |us|
  {
    if us != [] {
      var init := us[..|us| - 1];
      MatchingMembers(init, query, u);
      assert us == init + [us[|us| - 1]];
    }
  }

  /** Every row contains the empty query, so it keeps everything. */
  lemma {:induction false} MatchingEmptyQuery(us: seq<User>)
    ensures Matching(us, "") == us
    decreases |us|
  {
    if us != [] {
      MatchingEmptyQuery(us[..|us| - 1]);
      ContainsEmpty(ToLower(us[|us| - 1].email));
      assert ToLower("") == "";
      assert us[..|us| - 1] + [us[|us| - 1]] == us;
    }
  }

  /** The client-side filter of SearchUsers; an empty query keeps the listed rows as they are. */
  method FilterUsers(users: seq<User>, query: string) returns (filtered: seq<User>)
    ensures query != "" ==> filtered == Matching(users, query)
    ensures query == "" ==> filtered == users
  {
    filtered := users;
    if query != "" {
      filtered := [];
      var queryLower := ToLower(query);
      for i := 0 to |users|
        invariant filtered == Matching(users[..i], query)
      {
        assert users[..i + 1][..i] == users[..i];
        if Contains(ToLower(users[i].email), queryLower) || Contains(ToLower(users[i].firstName), queryLower)
           || Contains(ToLower(users[i].lastName), queryLower) {
          filtered := filtered + [users[i]];
        }
      }
      assert users[..|users|] == users;
    }
  }

  // -----------------------------------------------------------------------
  // The handlers as functions of the store's contents

  datatype CreateFaults = CreateFaults(hash: bool, insert: Store.Fault, lastInsertId: bool, read: Store.Fault)

  /**
   * CreateUser against the store's contents: at most one row is added and the
   * existing rows and the reset records stay as they were.
   */
  function CreateUserOn(d: Store.Db, req: CreateUserRequest, salt: seq<Byte>, now: int, f: CreateFaults)
    : (r: (Store.Db, Response<UserResponse>))
    ensures r.1.status in {StatusCreated, StatusBadRequest, StatusInternalServerError}
    ensures r.1.status == StatusBadRequest <==> ValidateCreateUser(req) != []
    ensures r.0.resets == d.resets
    ensures d.Valid() ==> forall id :: id in d.users ==> id in r.0.users && r.0.users[id] == d.users[id]
    ensures r.0.users.Keys <= d.users.Keys + {d.nextUserID}
  {
    var errs := ValidateCreateUser(req);
    if errs != [] then (d, Error(StatusBadRequest, ErrorText(errs)))
    else if f.hash then (d, Error(StatusInternalServerError, HashFailed))
    else
      var params := Store.CreateUserParams(req.email, Bcrypt.GenerateFromPassword(req.password, salt),
                                           req.firstName, req.lastName, NullUsersStatus(UsersStatusActive, true));
      var (d1, inserted) := d.CreateUser(params, now, f.insert);
      if inserted.Err? then (d1, Error(StatusInternalServerError, inserted.error))
      else if f.lastInsertId then (d1, Error(StatusInternalServerError, LastInsertIdFailed))
      else match d1.GetUser(inserted.value, f.read)
        case Found(u) => (d1, Response(StatusCreated, Payload(ToUserResponse(u))))
        case _ => (d1, Error(StatusInternalServerError, ReadCreatedFailed))
  }

  /** The path parameter :id, as strconv.ParseInt(s, 10, 64) reads it. */
  function UserID(param: string): Option<int>
  {
    match ParseInt64(param)
    case Ok(id) => Some(id)
    case Err(_) => None
  }

  /** GetUser only reads the store. */
  function GetUserOn(d: Store.Db, idParam: string, fault: Store.Fault): (r: Response<UserResponse>)
    ensures r.status == StatusOK <==> UserID(idParam).Some? && fault.None? && UserID(idParam).value in d.users
    ensures r.status == StatusOK ==> r.body == Payload(ToUserResponse(d.users[UserID(idParam).value]))
    ensures r.status == StatusBadRequest <==> UserID(idParam).None?
    ensures r.status == StatusNotFound <==>
      UserID(idParam).Some? && fault.None? && UserID(idParam).value !in d.users
    ensures r.status == StatusNotFound ==> r == Error(StatusNotFound, UserNotFound)
    ensures r.status in {StatusOK, StatusBadRequest, StatusNotFound, StatusInternalServerError}
  {
    match UserID(idParam)
    case None => Error(StatusBadRequest, InvalidUserID)
    case Some(id) =>
      match d.GetUser(id, fault)
      case Found(u) => Response(StatusOK, Payload(ToUserResponse(u)))
      case NoRows => Error(StatusNotFound, UserNotFound)
      case QueryFailed(message) => Error(StatusInternalServerError, message)
  }

  /** The LIMIT and OFFSET sent: Atoi's value, errors ignored, cut to int32. */
  function ListWindow(q: Query): (int, int)
  {
    (Int32(AtoiValue(DefaultQuery(q, "limit", "10"))), Int32(AtoiValue(DefaultQuery(q, "offset", "0"))))
  }

  /** Without limit and offset the first 10 rows are asked for. */
  lemma DefaultListWindow(q: Query)
    requires "limit" !in q && "offset" !in q
    ensures ListWindow(q) == (10, 0)
  {
    DecimalRoundTrip(10);
    DecimalRoundTrip(0);
    assert DecimalString(10) == "10";
    assert DecimalString(0) == "0";
    Int32OfSmall(10);
    Int32OfSmall(0);
  }

  /** Leading digits past 2^64 - 1 make Atoi give MaxInt64, whose low 32 bits read as int32 are -1. */
  lemma OverflowingParameter(t: string, digits: string, rest: string)
    requires t == digits + rest
    requires AllDigits(digits) && DigitsValue(digits) > MaxUint64
    ensures Int32(AtoiValue(t)) == -1
  {
    assert "" + digits + rest == t;
    OverflowBeforeSyntax("", digits, rest);
    var v := AtoiValue(t);
    assert v == MaxInt64;
    Int32OfMaxInt64();
  }

  /**
   * A limit or offset whose leading digits pass 2^64 - 1 is a range error
   * whatever follows them, so the query is sent a negative window and fails.
   */
  lemma OverflowingWindowFails(d: Store.Db, q: Query, key: string, digits: string, rest: string, fault: Store.Fault)
    requires key == "limit" || key == "offset"
    requires key in q && q[key] == digits + rest
    requires AllDigits(digits) && DigitsValue(digits) > MaxUint64
    ensures (if key == "limit" then ListWindow(q).0 else ListWindow(q).1) == -1
    ensures ListUsersOn(d, q, fault).status == StatusInternalServerError
    ensures SearchUsersOn(d, q, fault).status == StatusInternalServerError
  {
    OverflowingParameter(q[key], digits, rest);
    assert DefaultQuery(q, key, if key == "limit" then "10" else "0") == q[key];
    var (limit, offset) := ListWindow(q);
    assert limit < 0 || offset < 0;
    assert d.ListUsers(limit, offset, fault).Err?;
  }

  function ListUsersOn(d: Store.Db, q: Query, fault: Store.Fault): (r: Response<UsersResponse>)
    ensures r.status in {StatusOK, StatusInternalServerError}
    ensures r.status == StatusOK ==> r.body.Payload? && r.body.value.total == |r.body.value.users|
  {
    var (limit, offset) := ListWindow(q);
    match d.ListUsers(limit, offset, fault)
    case Err(message) => Error(StatusInternalServerError, message)
    case Ok(users) => Response(StatusOK, Payload(UsersResponse(ToUserResponses(users), |users|)))
  }

  function SearchUsersOn(d: Store.Db, q: Query, fault: Store.Fault): (r: Response<UsersResponse>)
    ensures r.status in {StatusOK, StatusInternalServerError}
    ensures r.status == StatusOK ==> r.body.Payload? && r.body.value.total == |r.body.value.users|
    ensures r.status == StatusOK <==> ListUsersOn(d, q, fault).status == StatusOK
  {
    var query := DefaultQuery(q, "q", "");
    var (limit, offset) := ListWindow(q);
    match d.ListUsers(limit, offset, fault)
    case Err(message) => Error(StatusInternalServerError, message)
    case Ok(users) =>
      var kept := if query != "" then Matching(users, query) else users;
      Response(StatusOK, Payload(UsersResponse(ToUserResponses(kept), |kept|)))
  }

  /** The listed rows: every row on the page, projected, and their count. */
  lemma ListedRows(d: Store.Db, q: Query, fault: Store.Fault)
    ensures var r := ListUsersOn(d, q, fault);
      var (limit, offset) := ListWindow(q);
      var page := d.ListUsers(limit, offset, fault);
      (r.status == StatusOK <==> page.Ok?)
      && (page.Ok? ==> r.body == Payload(UsersResponse(ToUserResponses(page.value), |page.value|)))
      && (page.Err? ==> r == Error(StatusInternalServerError, page.error))
  {
  }

  /** Searching without a query answers exactly as listing does. */
  lemma SearchWithoutQueryIsList(d: Store.Db, q: Query, fault: Store.Fault)
    requires DefaultQuery(q, "q", "") == ""
    ensures SearchUsersOn(d, q, fault) == ListUsersOn(d, q, fault)
  {
  }

  /**
   * A search answers with exactly the rows of the page that match, in page
   * order, and their count.
   */
  lemma SearchFindsMatches(d: Store.Db, q: Query, fault: Store.Fault, u: User)
    requires DefaultQuery(q, "q", "") != ""
    requires SearchUsersOn(d, q, fault).status == StatusOK
    ensures var page := d.ListUsers(ListWindow(q).0, ListWindow(q).1, fault).value;
      var kept := Matching(page, DefaultQuery(q, "q", ""));
      var resp := SearchUsersOn(d, q, fault).body.value;
      && resp.users == ToUserResponses(kept) && resp.total == |kept| <= |page|
      && (u in kept <==> u in page && Matches(u, DefaultQuery(q, "q", "")))
      && (u in page && Matches(u, DefaultQuery(q, "q", "")) ==> ToUserResponse(u) in resp.users)
  {
    var page := d.ListUsers(ListWindow(q).0, ListWindow(q).1, fault).value;
    var kept := Matching(page, DefaultQuery(q, "q", ""));
    MatchingMembers(page, DefaultQuery(q, "q", ""), u);
    if u in page && Matches(u, DefaultQuery(q, "q", "")) {
      var k :| 0 <= k < |kept| && kept[k] == u;
      assert ToUserResponses(kept)[k] == ToUserResponse(u);
    }
  }

  datatype UpdateFaults = UpdateFaults(read: Store.Fault, update: Store.Fault, reread: Store.Fault)

  /** The parameters UpdateUser sends: empty strings keep the current row's value; a missing status is NULL. */
  function MergedParams(id: int, req: UpdateUserRequest, current: User): (p: Store.UpdateUserParams)
  {
    Store.UpdateUserParams(
      id,
      if req.email == "" then current.email else req.email,
      if req.firstName == "" then current.firstName else req.firstName,
      if req.lastName == "" then current.lastName else req.lastName,
      NullUsersStatus(req.status, req.status != ""))
  }

  /** A given field replaces the current one, an empty one keeps it, and the status is NULL exactly when omitted. */
  lemma MergeKeepsOrReplaces(id: int, req: UpdateUserRequest, current: User)
    ensures var p := MergedParams(id, req, current);
      && p.id == id
      && (req.email != "" ==> p.email == req.email) && (req.email == "" ==> p.email == current.email)
      && (req.firstName != "" ==> p.firstName == req.firstName) && (req.firstName == "" ==> p.firstName == current.firstName)
      && (req.lastName != "" ==> p.lastName == req.lastName) && (req.lastName == "" ==> p.lastName == current.lastName)
      && (p.status.valid <==> req.status != "") && p.status.usersStatus == req.status
      && (p.status.valid ==> p.status.usersStatus in UsersStatusValues || ValidateUpdateUser(req) != [])
  {
  }

  /** UpdateUser against the store's contents: no row is added or removed, and at most the addressed one changes. */
  function UpdateUserOn(d: Store.Db, idParam: string, req: UpdateUserRequest, now: int, f: UpdateFaults)
    : (r: (Store.Db, Response<UserResponse>))
    ensures r.1.status in {StatusOK, StatusBadRequest, StatusNotFound, StatusInternalServerError}
    ensures r.0.users.Keys == d.users.Keys && r.0.resets == d.resets && r.0.nextUserID == d.nextUserID
    ensures forall id :: id in d.users && Some(id) != UserID(idParam) ==> r.0.users[id] == d.users[id]
    ensures r.1.status == StatusNotFound || r.1.status == StatusBadRequest ==> r.0 == d
  {
    match UserID(idParam)
    case None => (d, Error(StatusBadRequest, InvalidUserID))
    case Some(id) =>
      var errs := ValidateUpdateUser(req);
      if errs != [] then (d, Error(StatusBadRequest, ErrorText(errs)))
      else match d.GetUser(id, f.read)
        case NoRows => (d, Error(StatusNotFound, UserNotFound))
        case QueryFailed(message) => (d, Error(StatusInternalServerError, message))
        case Found(current) =>
          var (d1, err) := d.UpdateUser(MergedParams(id, req, current), now, f.update);
          if err.Some? then (d1, Error(StatusInternalServerError, err.value))
          else match d1.GetUser(id, f.reread)
            case Found(u) => (d1, Response(StatusOK, Payload(ToUserResponse(u))))
            case _ => (d1, Error(StatusInternalServerError, ReadUpdatedFailed))
  }

  /** DeleteUser against the store's contents: only the addressed row can go. */
  function DeleteUserOn(d: Store.Db, idParam: string, fault: Store.Fault): (r: (Store.Db, Response<()>))
    ensures r.1.status in {StatusOK, StatusBadRequest, StatusInternalServerError}
    ensures r.0.resets == d.resets && r.0.users.Keys <= d.users.Keys
    ensures r.1.status == StatusOK <==> UserID(idParam).Some? && fault.None?
    ensures r.1.status == StatusOK ==> r.0.users == d.users - {UserID(idParam).value}
    ensures r.1.status != StatusOK ==> r.0 == d
  {
    match UserID(idParam)
    case None => (d, Error(StatusBadRequest, InvalidUserID))
    case Some(id) =>
      var (d1, err) := d.DeleteUser(id, fault);
      if err.Some? then (d1, Error(StatusInternalServerError, err.value))
      else (d1, Message(StatusOK, UserDeleted))
  }

  // -----------------------------------------------------------------------
  // What the handlers promise

  /**
   * A created account stores the password's hash and the active status; it is
   * the only row added, and the 201 answer is that row.
   */
  lemma CreatedUserIsStored(d: Store.Db, req: CreateUserRequest, salt: seq<Byte>, now: int, f: CreateFaults)
    requires CreateUserOn(d, req, salt, now, f).1.status == StatusCreated
    ensures var (d1, r) := CreateUserOn(d, req, salt, now, f);
      var id := d.nextUserID;
      && id in d1.users && d1.users == d.users[id := d1.users[id]]
      && d1.users[id].passwordHash == Bcrypt.GenerateFromPassword(req.password, salt)
      && Bcrypt.CompareHashAndPassword(d1.users[id].passwordHash, req.password)
      && d1.users[id].status == NullUsersStatus(UsersStatusActive, true)
      && d1.users[id].email == req.email
      && r.body == Payload(ToUserResponse(d1.users[id]))
  {
  }

  /** A refused body, a bcrypt failure or a failed insert leaves the store as it was and gives no 201. */
  lemma CreateFailureChangesNothing(d: Store.Db, req: CreateUserRequest, salt: seq<Byte>, now: int, f: CreateFaults)
    requires ValidateCreateUser(req) != [] || f.hash || f.insert.Some?
    ensures CreateUserOn(d, req, salt, now, f).0 == d
    ensures CreateUserOn(d, req, salt, now, f).1.status in {StatusBadRequest, StatusInternalServerError}
  {
  }

  /** A bad id, a body that does not bind or a missing user leaves the store as it was. */
  lemma UpdateRefusalChangesNothing(d: Store.Db, idParam: string, req: UpdateUserRequest, now: int, f: UpdateFaults)
    requires UserID(idParam).None? || ValidateUpdateUser(req) != []
      || (f.read.None? && UserID(idParam).value !in d.users)
    ensures UpdateUserOn(d, idParam, req, now, f).0 == d
    ensures UserID(idParam).None? ==> UpdateUserOn(d, idParam, req, now, f).1 == Error(StatusBadRequest, InvalidUserID)
    ensures UserID(idParam).Some? && ValidateUpdateUser(req) == [] ==>
      UpdateUserOn(d, idParam, req, now, f).1 == Error(StatusNotFound, UserNotFound)
  {
  }

  /** A successful update rewrites that one row with the merged fields and answers with it. */
  lemma UpdatedUserIsStored(d: Store.Db, idParam: string, req: UpdateUserRequest, now: int, f: UpdateFaults)
    requires UpdateUserOn(d, idParam, req, now, f).1.status == StatusOK
    ensures var (d1, r) := UpdateUserOn(d, idParam, req, now, f);
      var id := UserID(idParam).value;
      var p := MergedParams(id, req, d.users[id]);
      && id in d.users && d1.users == d.users[id := d1.users[id]]
      && d1.users[id] == d.users[id].(email := p.email, firstName := p.firstName, lastName := p.lastName,
                                      status := p.status, updatedAt := now)
      && d1.users[id].passwordHash == d.users[id].passwordHash
      && r.body == Payload(ToUserResponse(d1.users[id]))
  {
  }

  /** After a delete the user is gone: reading it again answers 404. */
  lemma DeletedUserIsGone(d: Store.Db, idParam: string, fault: Store.Fault)
    requires DeleteUserOn(d, idParam, fault).1.status == StatusOK
    ensures GetUserOn(DeleteUserOn(d, idParam, fault).0, idParam, None) == Error(StatusNotFound, UserNotFound)
    ensures DeleteUserOn(d, idParam, fault).0.users == d.users - {UserID(idParam).value}
  {
  }

  // -----------------------------------------------------------------------
  // The handler against the mutable store

  class UserHandler {
    const queries: Store.Tables

    constructor (queries: Store.Tables)
      ensures this.queries == queries
    {
      this.queries := queries;
    }

    method CreateUser(req: CreateUserRequest, salt: seq<Byte>, now: int, f: CreateFaults) returns (r: Response<UserResponse>)
      requires queries.Valid()
      modifies queries
      ensures queries.Valid()
      ensures (queries.State(), r) == CreateUserOn(old(queries.State()), req, salt, now, f)
    {
      var errs := ValidateCreateUser(req);
      if errs != [] { return Error(StatusBadRequest, ErrorText(errs)); }
      if f.hash { return Error(StatusInternalServerError, HashFailed); }
      var hashed := Bcrypt.GenerateFromPassword(req.password, salt);
      var inserted := queries.CreateUser(
        Store.CreateUserParams(req.email, hashed, req.firstName, req.lastName, NullUsersStatus(UsersStatusActive, true)),
        now, f.insert);
      if inserted.Err? { return Error(StatusInternalServerError, inserted.error); }
      if f.lastInsertId { return Error(StatusInternalServerError, LastInsertIdFailed); }
      var user := queries.GetUser(inserted.value, f.read);
      if !user.Found? { return Error(StatusInternalServerError, ReadCreatedFailed); }
      r := Response(StatusCreated, Payload(ToUserResponse(user.row)));
    }

    method ListUsers(q: Query, fault: Store.Fault) returns (r: Response<UsersResponse>)
      ensures r == ListUsersOn(queries.State(), q, fault)
    {
      var (limit, offset) := ListWindow(q);
      var users := queries.ListUsers(limit, offset, fault);
      if users.Err? { return Error(StatusInternalServerError, users.error); }
      var resp := BuildUsersResponse(users.value);
      assert resp.users == ToUserResponses(users.value);
      r := Response(StatusOK, Payload(resp));
    }

    method UpdateUser(idParam: string, req: UpdateUserRequest, now: int, f: UpdateFaults) returns (r: Response<UserResponse>)
      requires queries.Valid()
      modifies queries
      ensures queries.Valid()
      ensures (queries.State(), r) == UpdateUserOn(old(queries.State()), idParam, req, now, f)
    {
      var id := ParseInt64(idParam);
      if id.Err? { return Error(StatusBadRequest, InvalidUserID); }
      var errs := ValidateUpdateUser(req);
      if errs != [] { return Error(StatusBadRequest, ErrorText(errs)); }
      var current := queries.GetUser(id.value, f.read);
      if current.NoRows? { return Error(StatusNotFound, UserNotFound); }
      if current.QueryFailed? { return Error(StatusInternalServerError, current.message); }
      var params := Store.UpdateUserParams(id.value, req.email, req.firstName, req.lastName,
                                           NullUsersStatus(req.status, req.status != ""));
      if params.email == "" { params := params.(email := current.row.email); }
      if params.firstName == "" { params := params.(firstName := current.row.firstName); }
      if params.lastName == "" { params := params.(lastName := current.row.lastName); }
      assert params == MergedParams(id.value, req, current.row);
      var err := queries.UpdateUser(params, now, f.update);
      if err.Some? { return Error(StatusInternalServerError, err.value); }
      var updated := queries.GetUser(id.value, f.reread);
      if !updated.Found? { return Error(StatusInternalServerError, ReadUpdatedFailed); }
      r := Response(StatusOK, Payload(ToUserResponse(updated.row)));
    }

    method DeleteUser(idParam: string, fault: Store.Fault) returns (r: Response<()>)
      requires queries.Valid()
      modifies queries
      ensures queries.Valid()
      ensures (queries.State(), r) == DeleteUserOn(old(queries.State()), idParam, fault)
    {
      var id := ParseInt64(idParam);
      if id.Err? { return Error(StatusBadRequest, InvalidUserID); }
      var err := queries.DeleteUser(id.value, fault);
      if err.Some? { return Error(StatusInternalServerError, err.value); }
      r := Message(StatusOK, UserDeleted);
    }

    method SearchUsers(q: Query, fault: Store.Fault) returns (r: Response<UsersResponse>)
      ensures r == SearchUsersOn(queries.State(), q, fault)
    {
      var query := DefaultQuery(q, "q", "");
      var (limit, offset) := ListWindow(q);
      var users := queries.ListUsers(limit, offset, fault);
      if users.Err? { return Error(StatusInternalServerError, users.error); }
      var filtered := FilterUsers(users.value, query);
      var resp := BuildUsersResponse(filtered);
      assert resp.users == ToUserResponses(filtered);
      r := Response(StatusOK, Payload(resp));
    }
  }
}
