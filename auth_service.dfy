/**
 * The account rules of the backend's `AuthService`: login through
 * `validateUser`, registration with its ordered uniqueness and role
 * checks, and reading and updating one's profile. The user table is a
 * sequence of rows in insertion order; `findOne` returns the first row
 * that matches. Password hashing, hash comparison and token signing are
 * functions the service is given.
 */
module AuthService {
  import opened Wrappers
  import opened Roles
  import opened JsString

  /** A row of the user table. */
  datatype User = User(
    id: nat, email: string, password: string, fullName: string, role: Role,
    studentId: Option<string>, lecturerId: Option<string>,
    phone: Option<string>, address: Option<string>, avatar: Option<string>,
    isActive: bool, createdAt: int)

  datatype AuthError = Unauthorized(message: string) | Conflict(message: string) | BadRequest(message: string)

  const WrongCredentialsMsg: string := "Email atau password salah"
  const EmailTakenMsg: string := "Email sudah terdaftar"
  const StudentIdTakenMsg: string := "NIM sudah terdaftar"
  const LecturerIdTakenMsg: string := "NIDN sudah terdaftar"
  const StudentIdMissingMsg: string := "NIM wajib diisi untuk mahasiswa"
  const LecturerIdMissingMsg: string := "NIDN wajib diisi untuk dosen"
  const UserNotFoundMsg: string := "User tidak ditemukan"

  /**
   * The user `validateUser` hands to `login`: the selected columns without
   * the password. Columns the query does not select are `None`.
   */
  datatype SessionUser = SessionUser(
    id: nat, email: string, fullName: string, role: Role,
    studentId: Option<string>, lecturerId: Option<string>, isActive: bool, createdAt: int)

  datatype Payload = Payload(sub: nat, email: string, role: Role)

  datatype LoginUser = LoginUser(
    id: nat, email: string, fullName: string, role: Role,
    studentId: Option<string>, lecturerId: Option<string>, createdAt: int)

  datatype LoginResponse = LoginResponse(accessToken: string, user: LoginUser)

  /** The columns `getProfile` selects: neither the password nor `isActive`. */
  datatype Profile = Profile(
    id: nat, email: string, fullName: string, role: Role,
    studentId: Option<string>, lecturerId: Option<string>,
    phone: Option<string>, address: Option<string>, avatar: Option<string>, createdAt: int)

  /** A user without its password, as `register` and `updateProfile` return it. */
  datatype PublicUser = PublicUser(
    id: nat, email: string, fullName: string, role: Role,
    studentId: Option<string>, lecturerId: Option<string>,
    phone: Option<string>, address: Option<string>, avatar: Option<string>,
    isActive: bool, createdAt: int)

  datatype RegisterDto = RegisterDto(
    email: string, password: string, fullName: string, role: Role,
    studentId: Option<string>, lecturerId: Option<string>)

  /**
   * The part of `Partial<User>` this model covers: the five stripped
   * fields and the profile columns. `None` is a field left out of the
   * update; a nullable column may also be supplied as `Some(None)`, an
   * explicit `null`.
   */
  datatype ProfileUpdate = ProfileUpdate(
    password: Option<string>, role: Option<Role>, email: Option<string>,
    studentId: Option<string>, lecturerId: Option<string>,
    fullName: Option<string>, phone: Option<Option<string>>, address: Option<Option<string>>,
    avatar: Option<Option<string>>, isActive: Option<bool>)

  /** The index of the first row satisfying `p`. */
  function FindFirst(rows: seq<User>, p: User -> bool): (r: Option<nat>)
    ensures r.Some? ==> r.value < |rows| && p(rows[r.value]) && forall j :: 0 <= j < r.value ==> !p(rows[j])
    ensures r.None? ==> forall j :: 0 <= j < |rows| ==> !p(rows[j])
  {
    if rows == [] then None
    else if p(rows[0]) then Some(0)
    else match FindFirst(rows[1..], p)
      case None => None
      case Some(k) => Some(k + 1)
  }

  function HasEmail(email: string): User -> bool {
    (u: User) => u.email == email
  }

  function HasStudentId(studentId: string): User -> bool {
    (u: User) => u.studentId == Some(studentId)
  }

  function HasLecturerId(lecturerId: string): User -> bool {
    (u: User) => u.lecturerId == Some(lecturerId)
  }

  function HasId(id: nat): User -> bool {
    (u: User) => u.id == id
  }

  /** The columns of `validateUser`'s query, as written: the student and lecturer ids are not among them. */
  function SelectAsWritten(u: User): SessionUser {
    SessionUser(u.id, u.email, u.fullName, u.role, None, None, u.isActive, u.createdAt)
  }

  /** The columns `login` goes on to read, the student and lecturer ids included. */
  function SelectForLogin(u: User): SessionUser {
    SessionUser(u.id, u.email, u.fullName, u.role, u.studentId, u.lecturerId, u.isActive, u.createdAt)
  }

  function WithoutPassword(u: User): PublicUser {
    PublicUser(u.id, u.email, u.fullName, u.role, u.studentId, u.lecturerId,
               u.phone, u.address, u.avatar, u.isActive, u.createdAt)
  }

  function ProfileOf(u: User): Profile {
    Profile(u.id, u.email, u.fullName, u.role, u.studentId, u.lecturerId,
            u.phone, u.address, u.avatar, u.createdAt)
  }

  function LoginUserOf(s: SessionUser): LoginUser {
    LoginUser(s.id, s.email, s.fullName, s.role, s.studentId, s.lecturerId, s.createdAt)
  }

  /** `Object.assign(user, allowedUpdates)`: every supplied field except the five stripped ones. */
  function ApplyUpdate(u: User, upd: ProfileUpdate): (r: User)
    ensures r.password == u.password && r.role == u.role && r.email == u.email
    ensures r.studentId == u.studentId && r.lecturerId == u.lecturerId
    ensures r.id == u.id && r.createdAt == u.createdAt
    ensures upd.fullName.Some? ==> r.fullName == upd.fullName.value
    ensures upd.phone.Some? ==> r.phone == upd.phone.value
    ensures upd.address.Some? ==> r.address == upd.address.value
    ensures upd.avatar.Some? ==> r.avatar == upd.avatar.value
    ensures upd.isActive.Some? ==> r.isActive == upd.isActive.value
    ensures upd.fullName.None? ==> r.fullName == u.fullName
    ensures upd.phone.None? ==> r.phone == u.phone
    ensures upd.address.None? ==> r.address == u.address
    ensures upd.avatar.None? ==> r.avatar == u.avatar
    ensures upd.isActive.None? ==> r.isActive == u.isActive
  {
    u.(fullName := upd.fullName.GetOr(u.fullName),
       phone := upd.phone.GetOr(u.phone),
       address := upd.address.GetOr(u.address),
       avatar := upd.avatar.GetOr(u.avatar),
       isActive := upd.isActive.GetOr(u.isActive))
  }

  /** The five stripped fields have no effect, whatever they hold. */
  lemma StrippedFieldsIgnored(u: User, upd: ProfileUpdate)
    ensures ApplyUpdate(u, upd)
      == ApplyUpdate(u, upd.(password := None, role := None, email := None, studentId := None, lecturerId := None))
  {
  }

  class Service {
    var users: seq<User>
    var nextId: nat
    const hash: string -> string
    const compare: (string, string) -> bool
    const sign: Payload -> string
    /** The `isActive` a new row gets from the column default. */
    const activeOnCreate: bool

    /**
     * The table as registration keeps it: emails are unique, and so are the
     * student and lecturer ids that were supplied non-empty; every id is
     * below `nextId` and no two rows share one.
     */
    ghost predicate Valid()
      reads this
    {
      && (forall i, j :: 0 <= i < j < |users| ==> users[i].email != users[j].email)
      && (forall i, j :: 0 <= i < j < |users| && Truthy(users[i].studentId) ==> users[i].studentId != users[j].studentId)
      && (forall i, j :: 0 <= i < j < |users| && Truthy(users[i].lecturerId) ==> users[i].lecturerId != users[j].lecturerId)
      && (forall i :: 0 <= i < |users| ==> users[i].id < nextId)
      && (forall i, j :: 0 <= i < j < |users| ==> users[i].id != users[j].id)
    }

    constructor(hash: string -> string, compare: (string, string) -> bool, sign: Payload -> string, activeOnCreate: bool)
      ensures users == [] && nextId == 0
      ensures this.hash == hash && this.compare == compare && this.sign == sign
      ensures this.activeOnCreate == activeOnCreate
      ensures Valid()
    {
      users := [];
      nextId := 0;
      this.hash := hash;
      this.compare := compare;
      this.sign := sign;
      this.activeOnCreate := activeOnCreate;
    }

    /** `findOne({ where: { email } })`. */
    function FindByEmail(email: string): (r: Option<User>)
      reads this
      ensures r.Some? ==> r.value in users && r.value.email == email
      ensures r.None? <==> forall u :: u in users ==> u.email != email
    {
      match FindFirst(users, HasEmail(email))
      case None => None
      case Some(k) => Some(users[k])
    }

    /**
     * `validateUser` as written: the user with that email, if it is active and
     * the password matches its hash, without the password and without the
     * columns the query leaves out.
     */
    function ValidateUserAsWritten(email: string, password: string): (r: Option<SessionUser>)
      reads this
      ensures r.Some? <==> FindByEmail(email).Some? && FindByEmail(email).value.isActive
                           && compare(password, FindByEmail(email).value.password)
      ensures r.Some? ==> r == Some(SelectAsWritten(FindByEmail(email).value))
    {
      var found := FindByEmail(email);
      if found.Some? && found.value.isActive && compare(password, found.value.password)
      then Some(SelectAsWritten(found.value)) else None
    }

    /** `validateUser` with the student and lecturer ids among the selected columns. */
    function ValidateUser(email: string, password: string): (r: Option<SessionUser>)
      reads this
      ensures r.Some? <==> ValidateUserAsWritten(email, password).Some?
      ensures r.Some? ==> r == Some(SelectForLogin(FindByEmail(email).value))
    {
      var found := FindByEmail(email);
      if found.Some? && found.value.isActive && compare(password, found.value.password)
      then Some(SelectForLogin(found.value)) else None
    }

    function Respond(u: SessionUser): LoginResponse
      reads this
    {
      LoginResponse(sign(Payload(u.id, u.email, u.role)), LoginUserOf(u))
    }

    /** `login` over the query as written. */
    function LoginAsWritten(email: string, password: string): (r: Result<LoginResponse, AuthError>)
      reads this
      ensures r.Err? <==> ValidateUserAsWritten(email, password).None?
      ensures r.Err? ==> r.error == Unauthorized(WrongCredentialsMsg)
      ensures r.Ok? ==> r.value.user.studentId == None && r.value.user.lecturerId == None
    {
      match ValidateUserAsWritten(email, password)
      case None => Err(Unauthorized(WrongCredentialsMsg))
      case Some(u) => Ok(Respond(u))
    }

    /**
     * `login`: Unauthorized exactly when `validateUser` finds nothing;
     * otherwise a token signed over the user's id, email and role, and the
     * user's public fields with the ids it was registered with.
     */
    function Login(email: string, password: string): (r: Result<LoginResponse, AuthError>)
      reads this
      ensures r.Err? <==> ValidateUser(email, password).None?
      ensures r.Err? ==> r.error == Unauthorized(WrongCredentialsMsg)
      ensures r.Ok? ==> exists u ::
        && u in users && u.email == email && u.isActive && compare(password, u.password)
        && r.value.accessToken == sign(Payload(u.id, u.email, u.role))
        && r.value.user == LoginUser(u.id, u.email, u.fullName, u.role, u.studentId, u.lecturerId, u.createdAt)
      ensures r.Ok? ==> FindByEmail(email).Some?
      ensures r.Ok? ==> (var u := FindByEmail(email).value;
        && u.isActive && compare(password, u.password)
        && r.value.accessToken == sign(Payload(u.id, u.email, u.role))
        && r.value.user == LoginUser(u.id, u.email, u.fullName, u.role, u.studentId, u.lecturerId, u.createdAt))
    {
      match ValidateUser(email, password)
      case None => Err(Unauthorized(WrongCredentialsMsg))
      case Some(u) => Ok(Respond(u))
    }

    /**
     * The guard sequence of `register`: the email first, then a supplied
     * student id, then a supplied lecturer id, and only then the role
     * requirements. `None` means the registration goes through.
     */
    /** The email is free, and so are the student and lecturer ids that were supplied. */
    predicate PassesUniqueness(dto: RegisterDto)
      reads this
    {
      && FindByEmail(dto.email).None?
      && (Truthy(dto.studentId) ==> forall u :: u in users ==> u.studentId != dto.studentId)
      && (Truthy(dto.lecturerId) ==> forall u :: u in users ==> u.lecturerId != dto.lecturerId)
    }

    function RegisterCheck(dto: RegisterDto): (r: Option<AuthError>)
      reads this
      ensures r == Some(Conflict(EmailTakenMsg)) <==> FindByEmail(dto.email).Some?
      ensures r == Some(Conflict(StudentIdTakenMsg)) <==>
        FindByEmail(dto.email).None? && Truthy(dto.studentId)
        && exists u :: u in users && u.studentId == dto.studentId
      ensures r == Some(Conflict(LecturerIdTakenMsg)) <==>
        FindByEmail(dto.email).None?
        && !(Truthy(dto.studentId) && exists u :: u in users && u.studentId == dto.studentId)
        && Truthy(dto.lecturerId) && exists u :: u in users && u.lecturerId == dto.lecturerId
      ensures r.Some? && r.value.BadRequest? ==>
        && FindByEmail(dto.email).None?
        && (Truthy(dto.studentId) ==> forall u :: u in users ==> u.studentId != dto.studentId)
        && (Truthy(dto.lecturerId) ==> forall u :: u in users ==> u.lecturerId != dto.lecturerId)
      ensures r == Some(BadRequest(StudentIdMissingMsg)) <==>
        PassesUniqueness(dto) && dto.role == Student && !Truthy(dto.studentId)
      ensures r == Some(BadRequest(LecturerIdMissingMsg)) <==>
        PassesUniqueness(dto) && dto.role == Lecturer && !Truthy(dto.lecturerId)
      ensures r.None? <==>
        && (forall u :: u in users ==> u.email != dto.email)
        && (Truthy(dto.studentId) ==> forall u :: u in users ==> u.studentId != dto.studentId)
        && (Truthy(dto.lecturerId) ==> forall u :: u in users ==> u.lecturerId != dto.lecturerId)
        && (dto.role == Student ==> Truthy(dto.studentId))
        && (dto.role == Lecturer ==> Truthy(dto.lecturerId))
    {
      if FindByEmail(dto.email).Some? then Some(Conflict(EmailTakenMsg))
      else if Truthy(dto.studentId) && FindFirst(users, HasStudentId(dto.studentId.value)).Some? then
        Some(Conflict(StudentIdTakenMsg))
      else if Truthy(dto.lecturerId) && FindFirst(users, HasLecturerId(dto.lecturerId.value)).Some? then
        Some(Conflict(LecturerIdTakenMsg))
      else if dto.role == Student && !Truthy(dto.studentId) then Some(BadRequest(StudentIdMissingMsg))
      else if dto.role == Lecturer && !Truthy(dto.lecturerId) then Some(BadRequest(LecturerIdMissingMsg))
      else None
    }

    function NewUser(dto: RegisterDto, now: int): User
      reads this
    {
      User(nextId, dto.email, hash(dto.password), dto.fullName, dto.role,
           dto.studentId, dto.lecturerId, None, None, None, activeOnCreate, now)
    }

    /**
     * `register`: when a guard fails, its error and an unchanged table;
     * otherwise exactly one new row, holding the hash of the password, and
     * that row without its password.
     */
    method Register(dto: RegisterDto, now: int) returns (r: Result<PublicUser, AuthError>)
      requires Valid()
      modifies this
      ensures Valid()
      ensures old(RegisterCheck(dto)).Some? ==>
        r == Err(old(RegisterCheck(dto)).value) && users == old(users) && nextId == old(nextId)
      ensures old(RegisterCheck(dto)).None? ==>
        && users == old(users) + [old(NewUser(dto, now))]
        && users[|users| - 1].password == hash(dto.password)
        && nextId == old(nextId) + 1
        && r == Ok(WithoutPassword(old(NewUser(dto, now))))
    {
      var check := RegisterCheck(dto);
      if check.Some? {
        return Err(check.value);
      }
      var user := NewUser(dto, now);
      users := users + [user];
      nextId := nextId + 1;
      r := Ok(WithoutPassword(user));
    }

    /** `getProfile`: the selected columns of the user with that id, or Unauthorized. */
    function GetProfile(userId: nat): (r: Result<Profile, AuthError>)
      reads this
      ensures r.Err? <==> forall u :: u in users ==> u.id != userId
      ensures r.Err? ==> r.error == Unauthorized(UserNotFoundMsg)
      ensures r.Ok? ==> exists u :: u in users && u.id == userId && r.value == ProfileOf(u)
    {
      match FindFirst(users, HasId(userId))
      case None => Err(Unauthorized(UserNotFoundMsg))
      case Some(k) => Ok(ProfileOf(users[k]))
    }

    /**
     * `updateProfile`: Unauthorized for an unknown id; otherwise the user's
     * row takes every supplied field but the password, role, email, student
     * id and lecturer id, and is returned without its password.
     */
    method UpdateProfile(userId: nat, upd: ProfileUpdate) returns (r: Result<PublicUser, AuthError>)
      requires Valid()
      modifies this
      ensures Valid()
      ensures nextId == old(nextId) && |users| == |old(users)|
      ensures (forall u :: u in old(users) ==> u.id != userId) ==>
        r == Err(Unauthorized(UserNotFoundMsg)) && users == old(users)
      ensures (exists u :: u in old(users) && u.id == userId) ==>
        exists k :: 0 <= k < |users| && old(users)[k].id == userId
          && users == old(users)[k := ApplyUpdate(old(users)[k], upd)]
          && r == Ok(WithoutPassword(users[k]))
    {
      var found := FindFirst(users, HasId(userId));
      if found.None? {
        return Err(Unauthorized(UserNotFoundMsg));
      }
      var k := found.value;
      var user := ApplyUpdate(users[k], upd);
      users := users[k := user];
      r := Ok(WithoutPassword(user));
    }
  }

  /** Under the table invariant, `validateUser`'s result does not depend on which row `findOne` picks. */
  lemma ValidateUserIff(s: Service, email: string, password: string)
    requires s.Valid()
    ensures s.ValidateUser(email, password).Some? <==>
      exists u :: u in s.users && u.email == email && u.isActive && s.compare(password, u.password)
  {
    var found := s.FindByEmail(email);
    if found.Some? {
      forall u | u in s.users && u.email == email ensures u == found.value {
        var i :| 0 <= i < |s.users| && s.users[i] == u;
        var j :| 0 <= j < |s.users| && s.users[j] == found.value;
        assert i == j;
      }
    }
  }

  /**
   * The login response of the code as written never carries the student or
   * lecturer id, even for a student registered with one.
   */
  lemma LoginAsWrittenDropsStudentId(s: Service, u: User, password: string)
    requires s.users == [u] && u.isActive && s.compare(password, u.password)
    requires u.studentId == Some("2021001")
    ensures s.LoginAsWritten(u.email, password).Ok?
    ensures s.LoginAsWritten(u.email, password).value.user.studentId == None
    ensures s.Login(u.email, password).value.user.studentId == Some("2021001")
  {
    assert s.users[0] == u;
  }

  /**
   * A row that registration created (its email, and the hash of the
   * password) can log in with that password, provided the hash comparison
   * accepts a password against its own hash and new rows are active.
   */
  lemma RegisteredUserCanLogIn(s: Service, email: string, password: string)
    requires s.Valid() && (forall p :: s.compare(p, s.hash(p)))
    requires |s.users| > 0
    requires s.users[|s.users| - 1].email == email && s.users[|s.users| - 1].password == s.hash(password)
    requires s.users[|s.users| - 1].isActive
    ensures s.Login(email, password).Ok?
  {
    ValidateUserIff(s, email, password);
    assert s.users[|s.users| - 1] in s.users;
  }
}
