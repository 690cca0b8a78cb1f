/**
 * The records sqlc generates for the two tables (users, password_resets) and
 * the nullable `status` enum with its driver conversions: UsersStatus.Scan,
 * NullUsersStatus.Scan and NullUsersStatus.Value.
 */
module Models {
  import opened Wrappers
  import opened Text
  import Bcrypt

  type UsersStatus = string

  const UsersStatusActive: UsersStatus := "active"
  const UsersStatusInactive: UsersStatus := "inactive"
  const UsersStatusSuspended: UsersStatus := "suspended"

  /** The values of the `status` enum column, in declaration order. */
  const UsersStatusValues: seq<UsersStatus> := [UsersStatusActive, UsersStatusInactive, UsersStatusSuspended]

  /** A value exchanged with the SQL driver (Go's `interface{}`); `goType` is what `%T` prints. */
  datatype DriverValue =
    | NilValue
    | StringValue(s: string)
    | BytesValue(b: seq<Byte>)
    | OtherValue(goType: string)

  datatype ScanError = UnsupportedScanType(goType: string)

  function ScanErrorMessage(e: ScanError): string
  {
    "unsupported scan type for UsersStatus: " + e.goType
  }

  /** Go's string(b) for a byte slice, one character per byte (exact for ASCII text). */
  function BytesText(b: seq<Byte>): (s: string)
    ensures |s| == |b|
  {
    seq(|b|, i requires 0 <= i < |b| => b[i] as char)
  }

  /**
   * UsersStatus.Scan: the receiver's new value and the returned error. A
   * string or byte slice replaces the value; anything else (nil included)
   * leaves it as it was and fails.
   */
  function ScanUsersStatus(current: UsersStatus, src: DriverValue): (r: (UsersStatus, Option<ScanError>))
    ensures r.1.None? <==> src.StringValue? || src.BytesValue?
    ensures r.1.None? ==> r.0 == (if src.StringValue? then src.s else BytesText(src.b))
    ensures r.1.Some? ==> r.0 == current && r.1.value.goType == (if src.OtherValue? then src.goType else "<nil>")
  {
    match src
    case BytesValue(b) => (BytesText(b), None)
    case StringValue(s) => (s, None)
    case NilValue => (current, Some(UnsupportedScanType("<nil>")))
    case OtherValue(t) => (current, Some(UnsupportedScanType(t)))
  }

  /** A refused scan's error text names the Go type of the value, `<nil>` for nil. */
  lemma ScanErrorNamesType(current: UsersStatus, src: DriverValue)
    requires !src.StringValue? && !src.BytesValue?
    ensures ScanUsersStatus(current, src).1.Some?
    ensures ScanErrorMessage(ScanUsersStatus(current, src).1.value)
      == "unsupported scan type for UsersStatus: " + (if src.OtherValue? then src.goType else "<nil>")
  {
  }

  datatype NullUsersStatus = NullUsersStatus(usersStatus: UsersStatus, valid: bool)

  /**
   * NullUsersStatus.Scan: the receiver's new value and the returned error.
   * A nil value clears it; any other value sets `valid` first and then
   * scans the status, so an unsupported type fails with `valid` already set.
   */
  function ScanNullUsersStatus(ns: NullUsersStatus, src: DriverValue): (r: (NullUsersStatus, Option<ScanError>))
    ensures r.0.valid <==> src != NilValue
    ensures src == NilValue ==> r == (NullUsersStatus("", false), None)
    ensures r.1.Some? <==> src.OtherValue?
    ensures src.OtherValue? ==> r.0.usersStatus == ns.usersStatus && r.1 == Some(UnsupportedScanType(src.goType))
    ensures src.StringValue? ==> r.0.usersStatus == src.s
    ensures src.BytesValue? ==> r.0.usersStatus == BytesText(src.b)
  {
    if src == NilValue then (NullUsersStatus("", false), None)
    else
      var (status, err) := ScanUsersStatus(ns.usersStatus, src);
      (NullUsersStatus(status, true), err)
  }

  /** NullUsersStatus.Value: NULL when not valid, otherwise the status text. Its error is always nil. */
  function Value(ns: NullUsersStatus): (v: DriverValue)
    ensures v == NilValue <==> !ns.valid
    ensures ns.valid ==> v == StringValue(ns.usersStatus)
  {
    if !ns.valid then NilValue else StringValue(ns.usersStatus)
  }

  /**
   * Writing a status and scanning it back, into a receiver in any state,
   * gives the same value when it was valid and the cleared value when not.
   */
  lemma ScanValueRoundTrip(ns: NullUsersStatus, receiver: NullUsersStatus)
    ensures ScanNullUsersStatus(receiver, Value(ns))
         == (if ns.valid then ns else NullUsersStatus("", false), None)
  {
  }

  /** A receiver the driver can update in place, as `*NullUsersStatus` is in Go. */
  class NullUsersStatusCell {
    var usersStatus: UsersStatus
    var valid: bool

    function Get(): NullUsersStatus
      reads this
    {
      NullUsersStatus(usersStatus, valid)
    }

    constructor (init: NullUsersStatus)
      ensures Get() == init
    {
      usersStatus, valid := init.usersStatus, init.valid;
    }

    /** (&ns.UsersStatus).Scan(src): updates the status field only. */
    method ScanStatus(src: DriverValue) returns (err: Option<ScanError>)
      modifies this`usersStatus
      ensures (usersStatus, err) == ScanUsersStatus(old(usersStatus), src)
    {
      match src {
        case BytesValue(b) =>
          usersStatus := BytesText(b);
          err := None;
        case StringValue(s) =>
          usersStatus := s;
          err := None;
        case NilValue =>
          err := Some(UnsupportedScanType("<nil>"));
        case OtherValue(t) =>
          err := Some(UnsupportedScanType(t));
      }
    }

    /** ns.Scan(src). */
    method Scan(src: DriverValue) returns (err: Option<ScanError>)
      modifies this
      ensures (Get(), err) == ScanNullUsersStatus(old(Get()), src)
    {
      if src == NilValue {
        usersStatus, valid := "", false;
        return None;
      }
      valid := true;
      err := ScanStatus(src);
    }
  }

  /** A row of the `users` table; `createdAt` and `updatedAt` are seconds. */
  datatype User = User(
    id: int,
    email: string,
    passwordHash: Bcrypt.PasswordHash,
    firstName: string,
    lastName: string,
    status: NullUsersStatus,
    createdAt: int,
    updatedAt: int)

  /** A row of the `password_resets` table; `expiresAt` is seconds. */
  datatype PasswordReset = PasswordReset(
    id: int,
    userID: int,
    token: string,
    expiresAt: int,
    createdAt: Option<int>)
}
