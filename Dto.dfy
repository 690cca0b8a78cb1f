/** The request and response bodies of the user endpoints and the rules their tags state. */
module Dto {
  import opened Binding
  import Models

  datatype CreateUserRequest = CreateUserRequest(email: string, password: string, firstName: string, lastName: string)

  /** Email `required,email`; Password `required,min=8`; FirstName and LastName `required`. */
  function CreateUserFields(r: CreateUserRequest): seq<Field>
  {
    [ Field("Email", r.email, false, [Required, Email]),
      Field("Password", r.password, false, [Required, Min(8)]),
      Field("FirstName", r.firstName, false, [Required]),
      Field("LastName", r.lastName, false, [Required]) ]
  }

  /** A create request binds exactly when every field is present, the email is well formed and the password has 8 characters. */
  function ValidateCreateUser(r: CreateUserRequest): (errs: seq<FieldError>)
    ensures errs == [] <==>
      r.email != "" && IsEmail(r.email) && |r.password| >= 8 && r.firstName != "" && r.lastName != ""
  {
    var fs := CreateUserFields(r);
    assert FieldOk(fs[0]) <==> r.email != "" && IsEmail(r.email);
    assert FieldOk(fs[1]) <==> r.password != "" && |r.password| >= 8;
    assert FieldOk(fs[2]) <==> r.firstName != "";
    assert FieldOk(fs[3]) <==> r.lastName != "";
    Validate("CreateUserRequest", fs)
  }

  datatype UpdateUserRequest = UpdateUserRequest(email: string, firstName: string, lastName: string, status: string)

  /** Email `omitempty,email`; FirstName, LastName `omitempty`; Status `omitempty,oneof=active inactive suspended`. */
  function UpdateUserFields(r: UpdateUserRequest): seq<Field>
  {
    [ Field("Email", r.email, true, [Email]),
      Field("FirstName", r.firstName, true, []),
      Field("LastName", r.lastName, true, []),
      Field("Status", r.status, true, [OneOf(["active", "inactive", "suspended"])]) ]
  }

  /** Every update field is optional; a given email must be well formed and a given status one of the three values. */
  function ValidateUpdateUser(r: UpdateUserRequest): (errs: seq<FieldError>)
    ensures errs == [] <==>
      (r.email == "" || IsEmail(r.email)) && (r.status == "" || r.status in Models.UsersStatusValues)
  {
    var fs := UpdateUserFields(r);
    assert FieldOk(fs[0]) <==> r.email == "" || IsEmail(r.email);
    assert FieldOk(fs[3]) <==> r.status == "" || r.status in ["active", "inactive", "suspended"];
    Validate("UpdateUserRequest", fs)
  }

  /** What the API shows of a user: there is no password field. */
  datatype UserResponse = UserResponse(
    id: int,
    email: string,
    firstName: string,
    lastName: string,
    status: string,
    createdAt: int,
    updatedAt: int)

  datatype UsersResponse = UsersResponse(users: seq<UserResponse>, total: int)
}
