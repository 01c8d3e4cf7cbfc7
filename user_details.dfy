/**
 * DBUserDetails: the authenticated principal built from a stored user. Its
 * fields are final, so what the constructor fixes is what the getters return.
 */
module Security {
  import opened Sets
  import RoleService
  import UserStore

  type Role = RoleService.Role
  type User = UserStore.User

  /** The names of a set of roles. */
  function RoleNames(roles: set<Role>): set<string>
  {
    set r | r in roles :: r.name
  }

  class DBUserDetails {
    const username: string
    const password: string
    const id: int
    const authorities: set<string>
    /** The user the principal was built from. */
    ghost const user: User

    ghost predicate Valid()
    {
      && username == user.username
      && password == user.password
      && id == user.id
      && authorities == RoleNames(user.roles)
    }

    /** Copies the username, password and id, and adds one authority per role. */
    constructor (user: User)
      ensures Valid() && this.user == user
      ensures username == user.username && password == user.password && id == user.id
      ensures authorities == RoleNames(user.roles)
    {
      var granted: set<string> := {};
      var rest := user.roles;
      while rest != {}
        invariant rest <= user.roles
        invariant granted == RoleNames(user.roles - rest)
        decreases rest
      {
        NonEmptyHasElement(rest);
        var role :| role in rest;
        granted := granted + {role.name};
        rest := rest - {role};
      }
      assert user.roles - rest == user.roles;
      this.username := user.username;
      this.password := user.password;
      this.id := user.id;
      this.authorities := granted;
      this.user := user;
    }

    /** getAuthorities: exactly the names of the user's roles. */
    function GetAuthorities(): (r: set<string>)
      requires Valid()
      ensures forall name :: name in r <==> exists role :: role in user.roles && role.name == name
    {
      authorities
    }

    /** getPassword */
    function GetPassword(): (r: string)
      requires Valid()
      ensures r == user.password
    {
      password
    }

    /** getUsername */
    function GetUsername(): (r: string)
      requires Valid()
      ensures r == user.username
    {
      username
    }
  }

  /** A user without roles has no authorities. */
  lemma NoRolesNoAuthorities(roles: set<Role>)
    requires roles == {}
    ensures RoleNames(roles) == {}
  {
  }

  /** Distinct roles that share a name give a single authority. */
  lemma SameNameCollapses(a: Role, b: Role)
    requires a != b && a.name == b.name
    ensures RoleNames({a, b}) == {a.name}
    ensures |RoleNames({a, b})| < |{a, b}|
  {
    assert RoleNames({a, b}) == {a.name};
  }

  /** There are never more authorities than roles. */
  lemma {:induction false} AuthoritiesAtMostRoles(roles: set<Role>)
    ensures |RoleNames(roles)| <= |roles|
    decreases |roles|
  {
    if roles != {} {
      NonEmptyHasElement(roles);
      var r :| r in roles;
      var rest := roles - {r};
      AuthoritiesAtMostRoles(rest);
      assert RoleNames(roles) == RoleNames(rest) + {r.name};
    }
  }

  /** A freshly registered user, holding only the USER role, is granted only USER. */
  lemma RegisteredUserAuthorities(roles: map<string, Role>, user: User)
    requires RoleService.WellFormed(roles) && UserStore.DefaultRole in roles
    requires user.roles == {roles[UserStore.DefaultRole]}
    ensures RoleNames(user.roles) == {UserStore.DefaultRole}
    ensures "ADMIN" !in RoleNames(user.roles)
  {
    assert RoleNames(user.roles) == {roles[UserStore.DefaultRole].name};
  }
}
