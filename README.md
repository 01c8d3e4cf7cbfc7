# Task tracker: task, user and access rules

A model of the rule set of a Spring task-tracking web application. The
repositories become finite maps: the task table `id → Task`, the status table
`id → Status`, the role table `name → Role` and the user table
`username → User`. Exceptions become `Err` values of `Results.Error`.

- `StatusService` looks statuses up by upper-cased name or by id. `IsStatusValid`
  collects the stored names into a set and tests membership.
- `RoleService` looks roles up by upper-cased name or by id.
- `TaskStore.TaskService` is a class whose fields are the task table and its
  identity counter. Its methods create, fetch, filter, update and soft-delete
  tasks. Each one validates first and only then writes the table.
- `UserStore.UserService` is a class over the user table. `SaveUser` runs the
  registration guard chain (`RegistrationCheck`), fetches the `USER` role and
  stores a user with exactly that role and the hash of the password.
- `Security.DBUserDetails` is the authenticated principal. Its authorities are
  exactly the names of the user's roles.
- `UserController` holds one pure function per handler. Each maps the caller's
  admin flag, the caller's id and the user service's outcomes to an answer
  (a status code, or an exception the handler does not catch), and lists the
  service calls made.

Inputs that stand for things outside the core:
- the clock: the `now` parameter of `MarkAsDeleted`;
- the BCrypt encoder: the `hash` parameter of `SaveUser`;
- `isAdmin`, `getUserByID`, `updateUser`, `addRole`, `removeRole` and
  `deleteById`: inputs of the controller functions.

Where the code and its documentation disagree, the model follows the code:
- `findStatusByName` and `findStatusById` are documented to return null, but
  they throw `StatusNotFoundException`.
  - So the null checks in `createFromDTO`, `updateStatus` and `getByStatusName`
    never fire.
  - An unknown status id fails with `StatusNotFound`, not `IllegalArgument`.
- `createFromDTO` takes the status from the request body. It does not start
  every task in TO-DO.
- `updateStatus` never stamps `completedAt`, whatever its doc comment says.
- `markAsDeleted` throws `StatusNotFound` before changing anything when the
  table has no status 4.
- `saveUser` can fail with `RoleNotFound` when the `USER` role is missing. That
  check runs after the password checks.
- `saveUser` requires at least 6 characters. `security/model/User.java:40`
  declares at least 8.

## Model

| member | source | states |
|---|---|---|
| Text.ToUpper | src/main/java/com/tasktracker/service/StatusService.java:47 | the result has the input's length and is the input letter by letter with a-z upper-cased |
| Text.ToUpperIdempotent | src/main/java/com/tasktracker/service/StatusService.java:86 | upper-casing twice equals upper-casing once |
| Text.UpperCaseIsFixed | src/main/java/com/tasktracker/security/service/UserService.java:76 | a string without lower-case letters, such as "USER", is its own upper-case form |
| Text.Utf16Length | src/main/java/com/tasktracker/security/service/UserService.java:59-63 | String.length: one unit per character, two for a character above U+FFFF; equal to the character count exactly when there is no such character |
| Text.ToUpperEqualIffEqualIgnoringCase | src/main/java/com/tasktracker/service/StatusService.java:47 | two strings have the same upper-case form exactly when they differ only in letter case |
| StatusService.FindStatusByName | src/main/java/com/tasktracker/service/StatusService.java:46-54 | succeeds exactly when the upper-cased name is a stored name; returns the stored row with that name; otherwise StatusNotFound, never a null |
| StatusService.FindStatusById | src/main/java/com/tasktracker/service/StatusService.java:62-70 | succeeds exactly when the id is stored and returns that row, whose id is the one asked for; otherwise StatusNotFound |
| StatusService.IsStatusValid | src/main/java/com/tasktracker/service/StatusService.java:78-87 | true exactly when the upper-cased name is in the set of stored names, proved over the loop that collects them; on a well-formed table, true exactly when findStatusByName succeeds on the same name |
| StatusService.PreUpperCasedAgrees | src/main/java/com/tasktracker/service/TaskService.java:54 | validating the caller's upper-cased name gives the same answer as validating the name itself |
| StatusService.FindByNameIgnoresCase | src/main/java/com/tasktracker/service/StatusService.java:47 | names that differ only in case resolve to the same status |
| StatusService.FoundByNameIsUnique | src/main/java/com/tasktracker/service/StatusService.java:46-54 | two successful lookups return the same status exactly when the names agree up to case |
| RoleService.GetByName | src/main/java/com/tasktracker/security/service/RoleService.java:46-58 | succeeds exactly when the upper-cased name is stored; the role found is named by the upper-cased input; otherwise RoleNotFound |
| RoleService.GetByID | src/main/java/com/tasktracker/security/service/RoleService.java:72-85 | succeeds exactly when some role has that id and returns it; otherwise RoleNotFound |
| RoleService.GetByNameIgnoresCase | src/main/java/com/tasktracker/security/service/RoleService.java:49 | lookup by name is case-insensitive |
| RoleService.ByNameAndByIdAgree | src/main/java/com/tasktracker/security/service/RoleService.java:46-85 | the role found by name is found again by its id |
| RoleService.ByIdAndByNameAgree | src/main/java/com/tasktracker/security/service/RoleService.java:46-85 | when every stored name is upper-case, the role found by id is found again by its name |
| RoleService.UpperCaseNameIsKey | src/main/java/com/tasktracker/security/service/RoleService.java:49 | an upper-case name is looked up unchanged |
| TaskStore.TaskService.GetByID | src/main/java/com/tasktracker/service/TaskService.java:80-92 | returns the stored task with that id when present, otherwise NoSuchElement |
| TaskStore.TaskService.GetByStatusName | src/main/java/com/tasktracker/service/TaskService.java:51-70 | fails with IllegalArgument exactly when the upper-cased name is not a stored status name; on success returns each stored task whose status id is the resolved status's id, exactly once, and nothing else |
| TaskStore.TaskService.CreateFromDTO | src/main/java/com/tasktracker/service/TaskService.java:119-141 | rejects a null or empty description, then a null or empty user, then an unknown status id, saving nothing; on success adds exactly one new task under a fresh id, with the request's description, user and status |
| TaskStore.TaskService.Save | src/main/java/com/tasktracker/service/TaskService.java:100-102 | writes the task under its id and changes no other row |
| TaskStore.TaskService.UpdateStatus | src/main/java/com/tasktracker/service/TaskService.java:157-171 | an unknown status id fails with StatusNotFound and the table unchanged; otherwise only the status of the task changes, and completedAt is untouched |
| TaskStore.TaskService.UpdateDescription | src/main/java/com/tasktracker/service/TaskService.java:173-183 | a null or empty description fails with the table unchanged; otherwise only the description changes |
| TaskStore.TaskService.MarkAsDeleted | src/main/java/com/tasktracker/service/TaskService.java:193-200 | sets the status to status 4 and deletedAt to the given time, with description and user untouched; fails with nothing changed when status 4 is missing |
| TaskStore.DeleteTwice | src/main/java/com/tasktracker/service/TaskService.java:193-199 | a second delete of the same task is accepted and re-stamps deletedAt with the later time |
| UserStore.RegistrationCheck | src/main/java/com/tasktracker/security/service/UserService.java:51-65 | each rejection holds exactly when every earlier check passed and its own fails: duplicate username, then duplicate email, then a length below 6, then above 24, lengths counted in UTF-16 code units |
| UserStore.PasswordBoundaries | src/main/java/com/tasktracker/security/service/UserService.java:59-65 | password lengths 6 and 24 (UTF-16 code units) are accepted, 5 and 25 rejected |
| UserStore.SupplementaryCharactersCountTwice | src/main/java/com/tasktracker/security/service/UserService.java:59-65 | a password of three characters above U+FFFF has length 6 and passes the checks |
| UserStore.UsernameCheckComesFirst | src/main/java/com/tasktracker/security/service/UserService.java:51-53 | a taken username is reported whatever the email and password are |
| UserStore.LengthChecksComeLast | src/main/java/com/tasktracker/security/service/UserService.java:55-65 | when a uniqueness check fails, the password plays no part and the error is already-exists |
| UserStore.UserService.GetByUsername | src/main/java/com/tasktracker/security/service/UserService.java:38-47 | returns the stored user with that username, otherwise UsernameNotFound |
| UserStore.UserService.GetIdByUsername | src/main/java/com/tasktracker/security/service/UserService.java:30-36 | returns the id of that user, which no other user has; otherwise UsernameNotFound |
| UserStore.UserService.SaveUser | src/main/java/com/tasktracker/security/service/UserService.java:49-82 | any rejection leaves the table unchanged; on success the stored user has the request's username and email, hash(password), exactly the USER role and a fresh id, and is found by that username |
| Security.DBUserDetails.constructor | src/main/java/com/tasktracker/security/DBUserDetails.java:21-30 | copies username, password and id, and the authorities are exactly the names of the user's roles |
| Security.DBUserDetails.GetAuthorities | src/main/java/com/tasktracker/security/DBUserDetails.java:32-35 | a name is an authority exactly when some role of the user has it |
| Security.DBUserDetails.GetPassword | src/main/java/com/tasktracker/security/DBUserDetails.java:37-40 | returns the password of the user the principal was built from |
| Security.DBUserDetails.GetUsername | src/main/java/com/tasktracker/security/DBUserDetails.java:42-45 | returns the username of the user the principal was built from |
| Security.NoRolesNoAuthorities | src/main/java/com/tasktracker/security/DBUserDetails.java:25-28 | a user without roles has no authorities |
| Security.SameNameCollapses | src/main/java/com/tasktracker/security/DBUserDetails.java:25-28 | two roles with the same name give one authority |
| Security.AuthoritiesAtMostRoles | src/main/java/com/tasktracker/security/DBUserDetails.java:25-28 | there are never more authorities than roles |
| Security.RegisteredUserAuthorities | src/main/java/com/tasktracker/security/service/UserService.java:76 | a user holding only the USER role has exactly the authority USER and not ADMIN |
| UserController.Detail | src/main/java/com/tasktracker/controller/rest/UserController.java:116-149 | 401 exactly when the caller is neither admin nor the target, without looking the target up; otherwise 200 with the user when found, 400 when it is not, and any other exception uncaught |
| UserController.DetailUnauthorizedIgnoresLookup | src/main/java/com/tasktracker/controller/rest/UserController.java:125-147 | an unauthorized detail response is the same whatever the target lookup would return |
| UserController.Create | src/main/java/com/tasktracker/controller/rest/UserController.java:165-186 | 201 with the new user on success, 409 exactly for already-exists, 400 exactly for an invalid password |
| UserController.CreateAnswersRejectedRegistration | src/main/java/com/tasktracker/controller/rest/UserController.java:170-184 | a registration rejected by a uniqueness check answers 409, one rejected by a length check answers 400 |
| UserController.Update | src/main/java/com/tasktracker/controller/rest/UserController.java:198-217 | 401 exactly when the update raises an invalid password; 200 with the reloaded user when the update and the reload succeed |
| UserController.RoleFailureAnswer | src/main/java/com/tasktracker/controller/rest/UserController.java:250-253 | user-not-found, role-not-found and failed-update answer 400; any other exception is left uncaught |
| UserController.RoleChange | src/main/java/com/tasktracker/controller/rest/UserController.java:236-255 | a non-admin gets 401 with no call made; an admin's request looks the user up first and changes the role only when the user was found; 200 exactly when both succeed, with the user entity as it stands after the change |
| UserController.AddRoleHandler | src/main/java/com/tasktracker/controller/rest/UserController.java:232-256 | 401 for a non-admin with no call; for an admin, failures map to 400 and success to 200 |
| UserController.RemoveRoleHandler | src/main/java/com/tasktracker/controller/rest/UserController.java:271-298 | 401 for a non-admin with no call; for an admin, failures map to 400 and success to 200 |
| UserController.Delete | src/main/java/com/tasktracker/controller/rest/UserController.java:314-340 | 401 for a non-admin with no deletion; for an admin 200 on success and 400 when the user is missing |
| UserController.AdminOnlyHandlersCallNothing | src/main/java/com/tasktracker/controller/rest/UserController.java:236-242 | for a non-admin, addRole, removeRole and delete make no service call |

## Left out

- Text.ToUpper: covers only the ASCII letters a-z. Java's locale-dependent Unicode upper-casing, which can change a string's length, is not modelled.
- TaskStore.TaskService.UpdateStatus, UpdateDescription, MarkAsDeleted and Save require that the task's id is in the table, since the task is an entity loaded through getByID. Saving a detached task whose row is gone is not modelled.
- UserController.RoleChange: the entity that the unshown addRole or removeRole changes in place is modelled as an input, the user as it stands after the change. Nothing is assumed about how the change relates it to the user as looked up.
- The Task entity is a record here. The service methods return the updated record. The application instead updates the caller's object in place through setters, and the model does not capture that aliasing.
- Text.Utf16Length counts UTF-16 code units as String.length does. Unpaired surrogates cannot occur, because a Dafny string holds only Unicode scalar values.
- TaskStore.TaskService.MarkAsDeleted: returns the task's id rather than the confirmation message built from it.
- `createdAt` and `updatedAt` are maintained by Hibernate, so they are not fields of the model.
- The identity columns are modelled as counters (`nextId`) that give each new row a fresh id. The database's own id generation is not modelled.
- The `isDeleted` flag is not modelled, because the Task entity has no such field.
- `completedAt` stamping on status 3 is documented but not implemented. The model leaves `completedAt` untouched.
- `getTasks`, `getAllUsers` and the `list` handler are plain reads of a whole table and are not modelled.
- The query derivation of the repositories (`findByStatusId`, `findByUsername`, `findByEmail`, ...) becomes map lookups and comprehensions.
- BCrypt: the encoder is the uninterpreted `hash` parameter. Salting and password matching are not modelled.
- The bean-validation annotations on the DTOs and entities are enforced by the framework, so they are not modelled. Request strings other than the task body's description and user are therefore never null here.
- UserController: `isAdmin`, `getUserByID`, `updateUser`, `addRole`, `removeRole` and `deleteById` of UserService are not part of this model. Their results are inputs, and no rules about duplicate or last roles are assumed.
- UserController: an exception a handler does not catch is the answer `Uncaught(e)`, and the status the framework then sends is left open. For example, UsernameNotFoundException from getIdByUsername or getByUsername is a Spring Security authentication exception, which the security filter chain may answer with 401.
- UserController.Create and UserController.Update rely on one assumption: InvalidPasswordLengthException counts as an InvalidPasswordException. The exception classes are not part of this model. The create handler's doc comment says a bad password length raises InvalidPasswordException.
- Security: the `id` field has no getter in DBUserDetails.java, so it has none here. Authorities are modelled as role-name strings rather than GrantedAuthority objects.
- SecurityConfig.java, TaskRestController.java, the DBUserDetailsService classes and the older `com/tasktraker` package are not part of this model.
- Logging is not modelled.
- Concurrency is not modelled: each operation runs to completion on its own, with no interleaving between check and write.
- Java's `int` and `long` widths are not modelled. The model's only arithmetic is the identity counter.
