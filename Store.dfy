/**
 * The two tables behind db.Querier, as maps: users by id and password resets
 * by token. `Db` is the tables' contents and gives each query's meaning as a
 * function; `Tables` is the mutable store the handlers call, and each of its
 * methods is proved to do what the matching `Db` function says.
 *
 * The SQL text is not part of this model. Assumed here: ids come from an
 * auto-increment counter, emails and reset tokens are unique keys (a
 * duplicate insert fails), listing is by ascending id with LIMIT and OFFSET,
 * a write to a missing row changes nothing and reports no error, emails
 * are compared exactly (case included), deleting a user keeps its reset
 * records, and any call may fail with an error message chosen outside the
 * model (`Fault`).
 */
module Store {
  import opened Wrappers
  import opened Models
  import Bcrypt

  /** The answer of a single-row query. */
  datatype Lookup<T> = Found(row: T) | NoRows | QueryFailed(message: string)

  /** The error a database call reports, when it fails. */
  type Fault = Option<string>

  const DuplicateEntry: string := "Error 1062 (23000): Duplicate entry"
  const IncorrectArguments: string := "Error 1210 (HY000): Incorrect arguments to mysqld_stmt_execute"

  datatype CreateUserParams = CreateUserParams(
    email: string, passwordHash: Bcrypt.PasswordHash, firstName: string, lastName: string, status: NullUsersStatus)

  datatype UpdateUserParams = UpdateUserParams(
    id: int, email: string, firstName: string, lastName: string, status: NullUsersStatus)

  datatype CreatePasswordResetParams = CreatePasswordResetParams(userID: int, token: string, expiresAt: int)

  predicate EmailInUse(users: map<int, User>, email: string)
  {
    exists id :: id in users && users[id].email == email
  }

  predicate EmailUsedByOther(users: map<int, User>, email: string, self: int)
  {
    exists id :: id in users && id != self && users[id].email == email
  }

  /** The users with ids in [lo, hi), by ascending id. */
  function UsersFrom(users: map<int, User>, lo: int, hi: int): seq<User>
    decreases hi - lo
  {
    if lo >= hi then [] else (if lo in users then [users[lo]] else []) + UsersFrom(users, lo + 1, hi)
  }

  /** The user with the lowest id in [lo, hi) that has the email. */
  function FindEmail(users: map<int, User>, email: string, lo: int, hi: int): Option<User>
    decreases hi - lo
  {
    if lo >= hi then None
    else if lo in users && users[lo].email == email then Some(users[lo])
    else FindEmail(users, email, lo + 1, hi)
  }

  /** LIMIT limit OFFSET offset, for arguments that are not negative. */
  function Window(rows: seq<User>, offset: nat, limit: nat): seq<User>
  {
    var lo := if offset < |rows| then offset else |rows|;
    var hi := if lo + limit < |rows| then lo + limit else |rows|;
    rows[lo..hi]
  }

  /** The contents of the database. */
  datatype Db = Db(users: map<int, User>, resets: map<string, PasswordReset>, nextUserID: int, nextResetID: int)
  {
    /** Rows sit under their own keys, ids come from the counter, emails are unique. */
    ghost predicate Valid()
    {
      && 1 <= nextUserID && 1 <= nextResetID
      && (forall id :: id in users ==> users[id].id == id && 1 <= id < nextUserID)
      && (forall a, b :: a in users && b in users && users[a].email == users[b].email ==> a == b)
      && (forall t :: t in resets ==> resets[t].token == t)
    }

    function GetUser(id: int, fault: Fault): Lookup<User>
    {
      if fault.Some? then QueryFailed(fault.value)
      else if id in users then Found(users[id])
      else NoRows
    }

    function GetUserByEmail(email: string, fault: Fault): Lookup<User>
    {
      if fault.Some? then QueryFailed(fault.value)
      else match FindEmail(users, email, 1, nextUserID)
        case Some(u) => Found(u)
        case None => NoRows
    }

    /** The INSERT and the id LastInsertId reports. */
    function CreateUser(p: CreateUserParams, now: int, fault: Fault): (Db, Result<int, string>)
    {
      if fault.Some? then (this, Err(fault.value))
      else if EmailInUse(users, p.email) then (this, Err(DuplicateEntry))
      else
        var id := nextUserID;
        var row := User(id, p.email, p.passwordHash, p.firstName, p.lastName, p.status, now, now);
        (this.(users := users[id := row], nextUserID := id + 1), Ok(id))
    }

    function UpdateUser(p: UpdateUserParams, now: int, fault: Fault): (Db, Option<string>)
    {
      if fault.Some? then (this, fault)
      else if p.id !in users then (this, None)
      else if EmailUsedByOther(users, p.email, p.id) then (this, Some(DuplicateEntry))
      else
        var row := users[p.id].(email := p.email, firstName := p.firstName, lastName := p.lastName,
                                status := p.status, updatedAt := now);
        (this.(users := users[p.id := row]), None)
    }

    function UpdateUserPassword(id: int, hash: Bcrypt.PasswordHash, now: int, fault: Fault): (Db, Option<string>)
    {
      if fault.Some? then (this, fault)
      else if id !in users then (this, None)
      else (this.(users := users[id := users[id].(passwordHash := hash, updatedAt := now)]), None)
    }

    function DeleteUser(id: int, fault: Fault): (Db, Option<string>)
    {
      if fault.Some? then (this, fault) else (this.(users := users - {id}), None)
    }

    function ListUsers(limit: int, offset: int, fault: Fault): Result<seq<User>, string>
    {
      if fault.Some? then Err(fault.value)
      else if limit < 0 || offset < 0 then Err(IncorrectArguments)
      else Ok(Window(UsersFrom(users, 1, nextUserID), offset, limit))
    }

    function CreatePasswordReset(p: CreatePasswordResetParams, now: int, fault: Fault): (Db, Option<string>)
    {
      if fault.Some? then (this, fault)
      else if p.token in resets then (this, Some(DuplicateEntry))
      else
        var row := PasswordReset(nextResetID, p.userID, p.token, p.expiresAt, Some(now));
        (this.(resets := resets[p.token := row], nextResetID := nextResetID + 1), None)
    }

    function GetPasswordResetByToken(token: string, fault: Fault): Lookup<PasswordReset>
    {
      if fault.Some? then QueryFailed(fault.value)
      else if token in resets then Found(resets[token])
      else NoRows
    }

    function DeletePasswordReset(token: string, fault: Fault): (Db, Option<string>)
    {
      if fault.Some? then (this, fault) else (this.(resets := resets - {token}), None)
    }
  }

  /** The lookup by email finds exactly the user holding that email, if there is one. */
  lemma {:induction false} FindEmailFinds(users: map<int, User>, email: string, lo: int, hi: int)
    ensures FindEmail(users, email, lo, hi).Some? ==>
      var u := FindEmail(users, email, lo, hi).value;
      u.email == email && exists id :: lo <= id < hi && id in users && users[id] == u
    ensures FindEmail(users, email, lo, hi).None? <==>
      forall id :: lo <= id < hi && id in users ==> users[id].email != email
    decreases hi - lo
  {
    if lo < hi {
      FindEmailFinds(users, email, lo + 1, hi);
    }
  }

  /** In a valid database the email lookup answers with the one user holding the email. */
  lemma GetUserByEmailIsExact(d: Db, email: string)
    requires d.Valid()
    ensures d.GetUserByEmail(email, None).Found? <==> EmailInUse(d.users, email)
    ensures d.GetUserByEmail(email, None).Found? ==>
      var u := d.GetUserByEmail(email, None).row;
      u.id in d.users && d.users[u.id] == u && u.email == email
  {
    FindEmailFinds(d.users, email, 1, d.nextUserID);
    if EmailInUse(d.users, email) {
      var id :| id in d.users && d.users[id].email == email;
      assert 1 <= id < d.nextUserID;
    }
  }

  /** Every query keeps the database valid. */
  lemma WritesKeepValid(d: Db, now: int, fault: Fault)
    requires d.Valid()
    ensures forall p :: d.CreateUser(p, now, fault).0.Valid()
    ensures forall p :: d.UpdateUser(p, now, fault).0.Valid()
    ensures forall id, h :: d.UpdateUserPassword(id, h, now, fault).0.Valid()
    ensures forall id :: d.DeleteUser(id, fault).0.Valid()
    ensures forall p :: d.CreatePasswordReset(p, now, fault).0.Valid()
    ensures forall t :: d.DeletePasswordReset(t, fault).0.Valid()
  {
  }

  /** The mutable store. */
  class Tables {
    var users: map<int, User>
    var resets: map<string, PasswordReset>
    var nextUserID: int
    var nextResetID: int

    function State(): Db
      reads this
    {
      Db(users, resets, nextUserID, nextResetID)
    }

    ghost predicate Valid()
      reads this
    {
      State().Valid()
    }

    constructor ()
      ensures Valid() && State() == Db(map[], map[], 1, 1)
    {
      users, resets, nextUserID, nextResetID := map[], map[], 1, 1;
    }

    method GetUser(id: int, fault: Fault) returns (r: Lookup<User>)
      ensures r == State().GetUser(id, fault)
    {
      if fault.Some? { return QueryFailed(fault.value); }
      if id in users { r := Found(users[id]); } else { r := NoRows; }
    }

    method GetUserByEmail(email: string, fault: Fault) returns (r: Lookup<User>)
      ensures r == State().GetUserByEmail(email, fault)
    {
      if fault.Some? { return QueryFailed(fault.value); }
      var id := 1;
      while id < nextUserID
        invariant FindEmail(users, email, 1, nextUserID) == FindEmail(users, email, id, nextUserID)
        decreases nextUserID - id
      {
        if id in users && users[id].email == email {
          return Found(users[id]);
        }
        id := id + 1;
      }
      r := NoRows;
    }

    method CreateUser(p: CreateUserParams, now: int, fault: Fault) returns (r: Result<int, string>)
      requires Valid()
      modifies this
      ensures Valid()
      ensures (State(), r) == old(State()).CreateUser(p, now, fault)
    {
      if fault.Some? { return Err(fault.value); }
      if EmailInUse(users, p.email) { return Err(DuplicateEntry); }
      var id := nextUserID;
      users := users[id := User(id, p.email, p.passwordHash, p.firstName, p.lastName, p.status, now, now)];
      nextUserID := id + 1;
      r := Ok(id);
    }

    method UpdateUser(p: UpdateUserParams, now: int, fault: Fault) returns (err: Option<string>)
      requires Valid()
      modifies this
      ensures Valid()
      ensures (State(), err) == old(State()).UpdateUser(p, now, fault)
    {
      if fault.Some? { return fault; }
      if p.id !in users { return None; }
      if EmailUsedByOther(users, p.email, p.id) { return Some(DuplicateEntry); }
      users := users[p.id := users[p.id].(email := p.email, firstName := p.firstName, lastName := p.lastName,
                                          status := p.status, updatedAt := now)];
      err := None;
    }

    method UpdateUserPassword(id: int, hash: Bcrypt.PasswordHash, now: int, fault: Fault) returns (err: Option<string>)
      requires Valid()
      modifies this
      ensures Valid()
      ensures (State(), err) == old(State()).UpdateUserPassword(id, hash, now, fault)
    {
      if fault.Some? { return fault; }
      if id in users {
        users := users[id := users[id].(passwordHash := hash, updatedAt := now)];
      }
      err := None;
    }

    method DeleteUser(id: int, fault: Fault) returns (err: Option<string>)
      requires Valid()
      modifies this
      ensures Valid()
      ensures (State(), err) == old(State()).DeleteUser(id, fault)
    {
      if fault.Some? { return fault; }
      users := users - {id};
      err := None;
    }

    method ListUsers(limit: int, offset: int, fault: Fault) returns (r: Result<seq<User>, string>)
      ensures r == State().ListUsers(limit, offset, fault)
    {
      r := State().ListUsers(limit, offset, fault);
    }

    method CreatePasswordReset(p: CreatePasswordResetParams, now: int, fault: Fault) returns (err: Option<string>)
      requires Valid()
      modifies this
      ensures Valid()
      ensures (State(), err) == old(State()).CreatePasswordReset(p, now, fault)
    {
      if fault.Some? { return fault; }
      if p.token in resets { return Some(DuplicateEntry); }
      resets := resets[p.token := PasswordReset(nextResetID, p.userID, p.token, p.expiresAt, Some(now))];
      nextResetID := nextResetID + 1;
      err := None;
    }

    method GetPasswordResetByToken(token: string, fault: Fault) returns (r: Lookup<PasswordReset>)
      ensures r == State().GetPasswordResetByToken(token, fault)
    {
      if fault.Some? { return QueryFailed(fault.value); }
      if token in resets { r := Found(resets[token]); } else { r := NoRows; }
    }

    method DeletePasswordReset(token: string, fault: Fault) returns (err: Option<string>)
      requires Valid()
      modifies this
      ensures Valid()
      ensures (State(), err) == old(State()).DeletePasswordReset(token, fault)
    {
      if fault.Some? { return fault; }
      resets := resets - {token};
      err := None;
    }
  }
}
