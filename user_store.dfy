/**
 * UserService: registration and lookups over the user table, a finite map
 * from username to User. Password hashing is the parameter `hash`.
 */
module UserStore {
  import opened Results
  import opened Text
  import RoleService

  type Role = RoleService.Role

  datatype User = User(id: int, username: string, email: string, password: string, roles: set<Role>)

  /** The registration request body. */
  datatype UserDto = UserDto(username: string, email: string, password: string)

  const MinPasswordLength: int := 6
  const MaxPasswordLength: int := 24
  /** The one role a newly registered user receives. */
  const DefaultRole: string := "USER"

  /** Some stored user already has this email address. */
  predicate EmailTaken(users: map<string, User>, email: string)
  {
    exists u :: u in users && users[u].email == email
  }

  /**
   * The guard chain of saveUser, in the order saveUser runs them: duplicate username,
   * duplicate email, password too short, password too long.
   */
  function RegistrationCheck(users: map<string, User>, dto: UserDto): (r: Option<Error>)
    ensures r == Some(UserAlreadyExists(DuplicateUsername)) <==> dto.username in users
    ensures r == Some(UserAlreadyExists(DuplicateEmail)) <==> dto.username !in users && EmailTaken(users, dto.email)
    ensures r == Some(InvalidPasswordLength(TooShort)) <==>
      dto.username !in users && !EmailTaken(users, dto.email) && Utf16Length(dto.password) < MinPasswordLength
    ensures r == Some(InvalidPasswordLength(TooLong)) <==>
      dto.username !in users && !EmailTaken(users, dto.email) && Utf16Length(dto.password) > MaxPasswordLength
    ensures r == None <==>
      dto.username !in users && !EmailTaken(users, dto.email) && MinPasswordLength <= Utf16Length(dto.password) <= MaxPasswordLength
  {
    if dto.username in users then Some(UserAlreadyExists(DuplicateUsername))
    else if EmailTaken(users, dto.email) then Some(UserAlreadyExists(DuplicateEmail))
    else if Utf16Length(dto.password) < MinPasswordLength then Some(InvalidPasswordLength(TooShort))
    else if Utf16Length(dto.password) > MaxPasswordLength then Some(InvalidPasswordLength(TooLong))
    else None
  }

  /** Lengths 6 and 24, counted in UTF-16 code units, pass the password checks; 5 and 25 do not. */
  lemma PasswordBoundaries(users: map<string, User>, dto: UserDto)
    requires dto.username !in users && !EmailTaken(users, dto.email)
    ensures Utf16Length(dto.password) == 6 || Utf16Length(dto.password) == 24 ==> RegistrationCheck(users, dto) == None
    ensures Utf16Length(dto.password) == 5 ==> RegistrationCheck(users, dto) == Some(InvalidPasswordLength(TooShort))
    ensures Utf16Length(dto.password) == 25 ==> RegistrationCheck(users, dto) == Some(InvalidPasswordLength(TooLong))
  {
  }

  /** Three characters outside the Basic Multilingual Plane make a password of length 6, which passes. */
  lemma SupplementaryCharactersCountTwice(users: map<string, User>, dto: UserDto)
    requires dto.username !in users && !EmailTaken(users, dto.email)
    requires dto.password == "\U{1F600}\U{1F600}\U{1F600}"
    ensures |dto.password| == 3 && Utf16Length(dto.password) == 6
    ensures RegistrationCheck(users, dto) == None
  {
    assert dto.password[1..] == "\U{1F600}\U{1F600}";
    assert dto.password[2..] == "\U{1F600}";
  }

  /** A taken username is reported whatever the email and the password are. */
  lemma UsernameCheckComesFirst(users: map<string, User>, dto: UserDto, email: string, password: string)
    requires dto.username in users
    ensures RegistrationCheck(users, dto) == RegistrationCheck(users, UserDto(dto.username, email, password))
  {
  }

  /** The password length is only looked at once both uniqueness checks pass. */
  lemma LengthChecksComeLast(users: map<string, User>, dto: UserDto, password: string)
    requires dto.username in users || EmailTaken(users, dto.email)
    ensures RegistrationCheck(users, dto) == RegistrationCheck(users, dto.(password := password))
    ensures RegistrationCheck(users, dto).Some? && RegistrationCheck(users, dto).value.UserAlreadyExists?
  {
  }

  class UserService {
    /** The user table, and the next value of its identity column. */
    var users: map<string, User>
    var nextId: int
    /** The role table. */
    const roles: map<string, Role>

    ghost predicate Valid()
      reads this
    {
      && RoleService.WellFormed(roles)
      && 0 < nextId
      && (forall u :: u in users ==> users[u].username == u && 0 < users[u].id < nextId)
      && (forall u1, u2 :: u1 in users && u2 in users && users[u1].id == users[u2].id ==> u1 == u2)
    }

    constructor (users: map<string, User>, nextId: int, roles: map<string, Role>)
      requires RoleService.WellFormed(roles) && 0 < nextId
      requires forall u :: u in users ==> users[u].username == u && 0 < users[u].id < nextId
      requires forall u1, u2 :: u1 in users && u2 in users && users[u1].id == users[u2].id ==> u1 == u2
      ensures Valid()
      ensures this.users == users && this.nextId == nextId && this.roles == roles
    {
      this.users := users;
      this.nextId := nextId;
      this.roles := roles;
    }

    /** getByUsername: the stored user, or UsernameNotFoundException. */
    function GetByUsername(username: string): (r: Result<User>)
      reads this
      ensures r.Ok? <==> username in users
      ensures r.Ok? ==> r.value == users[username]
      ensures Valid() && r.Ok? ==> r.value.username == username
      ensures r.Err? ==> r.error == UsernameNotFound
    {
      if username in users then Ok(users[username]) else Err(UsernameNotFound)
    }

    /** getIdByUsername: the id of the user with that username. */
    function GetIdByUsername(username: string): (r: Result<int>)
      reads this
      ensures r.Ok? <==> username in users
      ensures r.Ok? ==> r.value == users[username].id
      ensures Valid() && r.Ok? ==> 0 < r.value && forall u :: u in users && users[u].id == r.value ==> u == username
      ensures r.Err? ==> r.error == UsernameNotFound
    {
      match GetByUsername(username)
      case Ok(user) => Ok(user.id)
      case Err(e) => Err(e)
    }

    /**
     * saveUser: runs the guard chain, fetches the USER role, and stores a new
     * user holding exactly that role and the hash of the password.
     */
    method SaveUser(dto: UserDto, hash: string -> string) returns (r: Result<User>)
      requires Valid()
      modifies this
      ensures Valid()
      ensures RegistrationCheck(old(users), dto).Some? ==> r == Err(RegistrationCheck(old(users), dto).value)
      ensures RegistrationCheck(old(users), dto).None? && DefaultRole !in roles ==> r == Err(RoleNotFound)
      ensures r.Ok? <==> RegistrationCheck(old(users), dto).None? && DefaultRole in roles
      ensures r.Err? ==> users == old(users) && nextId == old(nextId)
      ensures r.Ok? ==>
        && r.value == User(old(nextId), dto.username, dto.email, hash(dto.password), {roles[DefaultRole]})
        && r.value.roles == {roles[DefaultRole]}
        && users == old(users)[dto.username := r.value]
        && GetByUsername(dto.username) == Ok(r.value)
        && nextId == old(nextId) + 1
    {
      var rejected := RegistrationCheck(users, dto);
      if rejected.Some? {
        return Err(rejected.value);
      }
      UpperCaseIsFixed(DefaultRole);
      var role := RoleService.GetByName(roles, DefaultRole);
      if role.Err? {
        return Err(role.error);
      }
      var user := User(nextId, dto.username, dto.email, hash(dto.password), {role.value});
      users := users[dto.username := user];
      nextId := nextId + 1;
      r := Ok(user);
    }
  }
}
