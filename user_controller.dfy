/**
 * UserController: each handler decides a response from who is asking and
 * what the user service reported. The service calls behind a handler are not
 * part of this model; their outcomes are the handler's inputs, and the
 * response lists the calls the handler made, in order.
 */
module UserController {
  import opened Results
  import UserStore

  type User = UserStore.User

  const StatusOk: int := 200
  const StatusCreated: int := 201
  const StatusBadRequest: int := 400
  const StatusUnauthorized: int := 401
  const StatusConflict: int := 409

  /**
   * What a handler answers: a status code it chooses itself, or an exception
   * it does not catch, whose answer is left to the framework.
   */
  datatype Answer = Code(status: int) | Uncaught(error: Error)

  /** The user-service calls a handler can make. */
  datatype Call =
    | GetIdByUsername
    | GetUserByID(id: int)
    | SaveUser
    | UpdateUser
    | GetByUsername
    | AddRole(id: int, role: string)
    | RemoveRole(id: int, role: string)
    | DeleteById(id: int)

  datatype Response = Response(answer: Answer, body: Option<User>, calls: seq<Call>)

  /** InvalidPasswordLengthException is caught as an InvalidPasswordException. */
  predicate IsInvalidPassword(e: Error)
  {
    e.InvalidPassword? || e.InvalidPasswordLength?
  }

  /** The exceptions the role handlers catch. */
  predicate IsRoleUpdateFailure(e: Error)
  {
    e.UserNotFound? || e.RoleNotFound? || e.FailedRoleUpdate?
  }

  /**
   * detail: the caller's id is resolved first; then only an admin or the user
   * themselves may look the target up.
   */
  function Detail(isAdmin: bool, caller: Result<int>, id: int, lookup: Result<User>): (r: Response)
    ensures caller.Ok? ==> (r.answer == Code(StatusUnauthorized) <==> !isAdmin && caller.value != id)
    ensures r.answer == Code(StatusUnauthorized) ==> r.body == None && GetUserByID(id) !in r.calls
    ensures caller.Ok? && (isAdmin || caller.value == id) ==>
      && r.calls == [GetIdByUsername, GetUserByID(id)]
      && (r.answer == Code(StatusOk) <==> lookup.Ok?)
      && (lookup.Ok? ==> r.body == Some(lookup.value))
      && (lookup == Err(UserNotFound) ==> r.answer == Code(StatusBadRequest))
      && (lookup.Err? && !lookup.error.UserNotFound? ==> r.answer == Uncaught(lookup.error))
    ensures caller.Err? ==> r.answer == Uncaught(caller.error) && r.calls == [GetIdByUsername]
  {
    if caller.Err? then
      Response(Uncaught(caller.error), None, [GetIdByUsername])
    else if isAdmin || caller.value == id then
      var calls := [GetIdByUsername, GetUserByID(id)];
      match lookup
      case Ok(user) => Response(Code(StatusOk), Some(user), calls)
      case Err(UserNotFound) => Response(Code(StatusBadRequest), None, calls)
      case Err(e) => Response(Uncaught(e), None, calls)
    else
      Response(Code(StatusUnauthorized), None, [GetIdByUsername])
  }

  /** An unauthorized detail request answers the same whatever the target lookup would give. */
  lemma DetailUnauthorizedIgnoresLookup(isAdmin: bool, callerId: int, id: int, l1: Result<User>, l2: Result<User>)
    requires !isAdmin && callerId != id
    ensures Detail(isAdmin, Ok(callerId), id, l1) == Detail(isAdmin, Ok(callerId), id, l2)
    ensures Detail(isAdmin, Ok(callerId), id, l1) == Response(Code(StatusUnauthorized), None, [GetIdByUsername])
  {
  }

  /** create: registration, open to everyone. */
  function Create(saved: Result<User>): (r: Response)
    ensures r.calls == [SaveUser]
    ensures r.answer == Code(StatusCreated) <==> saved.Ok?
    ensures saved.Ok? ==> r.body == Some(saved.value)
    ensures r.answer == Code(StatusConflict) <==> saved.Err? && saved.error.UserAlreadyExists?
    ensures r.answer == Code(StatusBadRequest) <==> saved.Err? && IsInvalidPassword(saved.error)
    ensures r.answer.Uncaught? <==> saved.Err? && !saved.error.UserAlreadyExists? && !IsInvalidPassword(saved.error)
  {
    match saved
    case Ok(user) => Response(Code(StatusCreated), Some(user), [SaveUser])
    case Err(e) =>
      if e.UserAlreadyExists? then Response(Code(StatusConflict), None, [SaveUser])
      else if IsInvalidPassword(e) then Response(Code(StatusBadRequest), None, [SaveUser])
      else Response(Uncaught(e), None, [SaveUser])
  }

  /** A request the registration guards reject answers 409 for a duplicate and 400 for a bad password. */
  lemma CreateAnswersRejectedRegistration(users: map<string, User>, dto: UserStore.UserDto)
    requires UserStore.RegistrationCheck(users, dto).Some?
    ensures var answer := Create(Err(UserStore.RegistrationCheck(users, dto).value)).answer;
      && (dto.username in users || UserStore.EmailTaken(users, dto.email) <==> answer == Code(StatusConflict))
      && (dto.username !in users && !UserStore.EmailTaken(users, dto.email) <==> answer == Code(StatusBadRequest))
  {
  }

  /** update: a wrong current password answers 401; otherwise the reloaded user is returned. */
  function Update(updated: Outcome, reloaded: Result<User>): (r: Response)
    ensures r.answer == Code(StatusUnauthorized) <==> updated.Raised? && IsInvalidPassword(updated.error)
    ensures updated.Raised? ==> r.calls == [UpdateUser] && r.body == None
    ensures updated.Raised? && !IsInvalidPassword(updated.error) ==> r.answer == Uncaught(updated.error)
    ensures r.answer == Code(StatusOk) <==> updated.Done? && reloaded.Ok?
    ensures r.answer == Code(StatusOk) ==> r.calls == [UpdateUser, GetByUsername] && r.body == Some(reloaded.value)
    ensures updated.Done? && reloaded.Err? ==> r.answer == Uncaught(reloaded.error)
  {
    match updated
    case Raised(e) =>
      if IsInvalidPassword(e) then Response(Code(StatusUnauthorized), None, [UpdateUser])
      else Response(Uncaught(e), None, [UpdateUser])
    case Done =>
      match reloaded
      case Ok(user) => Response(Code(StatusOk), Some(user), [UpdateUser, GetByUsername])
      case Err(e) => Response(Uncaught(e), None, [UpdateUser, GetByUsername])
  }

  /** The answer for an exception raised inside addRole or removeRole. */
  function RoleFailureAnswer(e: Error): (a: Answer)
    ensures a == Code(StatusBadRequest) <==> IsRoleUpdateFailure(e)
    ensures a != Code(StatusBadRequest) ==> a == Uncaught(e)
  {
    if IsRoleUpdateFailure(e) then Code(StatusBadRequest) else Uncaught(e)
  }

  /**
   * The shared shape of addRole and removeRole: the admin check, then the
   * user lookup, then the role change. The change's outcome is the exception
   * it raised, or the looked-up user entity as it stands after the change:
   * the handler answers with that same object.
   */
  function RoleChange(isAdmin: bool, id: int, change: Call, lookup: Result<User>, changed: Result<User>): (r: Response)
    ensures !isAdmin ==> r == Response(Code(StatusUnauthorized), None, [])
    ensures isAdmin && lookup.Err? ==> r.calls == [GetUserByID(id)] && r.answer == RoleFailureAnswer(lookup.error)
    ensures isAdmin && lookup.Ok? ==> r.calls == [GetUserByID(id), change]
    ensures isAdmin && lookup.Ok? && changed.Err? ==> r.answer == RoleFailureAnswer(changed.error)
    ensures r.answer == Code(StatusOk) <==> isAdmin && lookup.Ok? && changed.Ok?
    ensures r.answer == Code(StatusOk) ==> r.body == Some(changed.value)
  {
    if !isAdmin then
      Response(Code(StatusUnauthorized), None, [])
    else
      match lookup
      case Err(e) => Response(RoleFailureAnswer(e), None, [GetUserByID(id)])
      case Ok(_) =>
        match changed
        case Err(e) => Response(RoleFailureAnswer(e), None, [GetUserByID(id), change])
        case Ok(after) => Response(Code(StatusOk), Some(after), [GetUserByID(id), change])
  }

  /** addRole: admin only; the role is added to the user looked up by id. */
  function AddRoleHandler(isAdmin: bool, id: int, role: string, lookup: Result<User>, changed: Result<User>): (r: Response)
    ensures !isAdmin ==> r.answer == Code(StatusUnauthorized) && r.calls == []
    ensures isAdmin && lookup.Ok? ==> r.calls == [GetUserByID(id), AddRole(id, role)]
    ensures isAdmin && lookup.Err? ==> r.calls == [GetUserByID(id)]
    ensures isAdmin && (lookup == Err(UserNotFound) || (lookup.Ok? && changed.Err? && IsRoleUpdateFailure(changed.error)))
      ==> r.answer == Code(StatusBadRequest)
    ensures r.answer == Code(StatusOk) <==> isAdmin && lookup.Ok? && changed.Ok?
    ensures r.answer == Code(StatusOk) ==> r.body == Some(changed.value)
  {
    RoleChange(isAdmin, id, AddRole(id, role), lookup, changed)
  }

  /** removeRole: admin only; the role is removed from the user looked up by id. */
  function RemoveRoleHandler(isAdmin: bool, id: int, role: string, lookup: Result<User>, changed: Result<User>): (r: Response)
    ensures !isAdmin ==> r.answer == Code(StatusUnauthorized) && r.calls == []
    ensures isAdmin && lookup.Ok? ==> r.calls == [GetUserByID(id), RemoveRole(id, role)]
    ensures isAdmin && lookup.Err? ==> r.calls == [GetUserByID(id)]
    ensures isAdmin && (lookup == Err(UserNotFound) || (lookup.Ok? && changed.Err? && IsRoleUpdateFailure(changed.error)))
      ==> r.answer == Code(StatusBadRequest)
    ensures r.answer == Code(StatusOk) <==> isAdmin && lookup.Ok? && changed.Ok?
    ensures r.answer == Code(StatusOk) ==> r.body == Some(changed.value)
  {
    RoleChange(isAdmin, id, RemoveRole(id, role), lookup, changed)
  }

  /** delete: admin only; a missing user answers 400. */
  function Delete(isAdmin: bool, id: int, deleted: Outcome): (r: Response)
    ensures !isAdmin ==> r.answer == Code(StatusUnauthorized) && r.calls == []
    ensures isAdmin ==> r.calls == [DeleteById(id)]
    ensures r.answer == Code(StatusOk) <==> isAdmin && deleted.Done?
    ensures isAdmin && deleted == Raised(UserNotFound) ==> r.answer == Code(StatusBadRequest)
    ensures isAdmin && deleted.Raised? && !deleted.error.UserNotFound? ==> r.answer == Uncaught(deleted.error)
    ensures r.body == None
  {
    if !isAdmin then Response(Code(StatusUnauthorized), None, [])
    else
      match deleted
      case Done => Response(Code(StatusOk), None, [DeleteById(id)])
      case Raised(UserNotFound) => Response(Code(StatusBadRequest), None, [DeleteById(id)])
      case Raised(e) => Response(Uncaught(e), None, [DeleteById(id)])
  }

  /** No admin-only handler touches the user service for a caller who is not an admin. */
  lemma AdminOnlyHandlersCallNothing(id: int, role: string, lookup: Result<User>, changed: Result<User>, deleted: Outcome)
    ensures AddRoleHandler(false, id, role, lookup, changed).calls == []
    ensures RemoveRoleHandler(false, id, role, lookup, changed).calls == []
    ensures Delete(false, id, deleted).calls == []
  {
  }
}
