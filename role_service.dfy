/**
 * RoleService: read-only lookups over the role table, a finite map from role
 * name to Role.
 */
module RoleService {
  import opened Results
  import opened Text

  datatype Role = Role(id: int, name: string)

  /** Every row is stored under its own name, and role ids are unique. */
  ghost predicate WellFormed(roles: map<string, Role>)
  {
    && (forall n :: n in roles ==> roles[n].name == n)
    && (forall n1, n2 :: n1 in roles && n2 in roles && roles[n1].id == roles[n2].id ==> n1 == n2)
  }

  /** getByName: the role stored under the upper-cased name. */
  function GetByName(roles: map<string, Role>, name: string): (r: Result<Role>)
    ensures r.Ok? <==> ToUpper(name) in roles
    ensures r.Ok? ==> r.value == roles[ToUpper(name)]
    ensures WellFormed(roles) && r.Ok? ==> r.value.name == ToUpper(name)
    ensures r.Err? ==> r.error == RoleNotFound
  {
    var upper := ToUpper(name);
    if upper in roles then Ok(roles[upper]) else Err(RoleNotFound)
  }

  /** getByID: the role with the given id. */
  function GetByID(roles: map<string, Role>, id: int): (r: Result<Role>)
    requires WellFormed(roles)
    ensures r.Ok? <==> exists n :: n in roles && roles[n].id == id
    ensures r.Ok? ==> r.value.id == id && r.value.name in roles && roles[r.value.name] == r.value
    ensures r.Err? ==> r.error == RoleNotFound
  {
    if exists n :: n in roles && roles[n].id == id then
      var n :| n in roles && roles[n].id == id;
      Ok(roles[n])
    else
      Err(RoleNotFound)
  }

  /** Looking a role up by name does not depend on the case of the name. */
  lemma GetByNameIgnoresCase(roles: map<string, Role>, a: string, b: string)
    requires EqualIgnoringCase(a, b)
    ensures GetByName(roles, a) == GetByName(roles, b)
  {
    ToUpperEqualIffEqualIgnoringCase(a, b);
  }

  /** A role found by name can be found again by its id. */
  lemma ByNameAndByIdAgree(roles: map<string, Role>, name: string)
    requires WellFormed(roles)
    requires GetByName(roles, name).Ok?
    ensures GetByID(roles, GetByName(roles, name).value.id) == GetByName(roles, name)
  {
  }

  /** When every stored name is upper-case, a role found by id can be found again by its name. */
  lemma ByIdAndByNameAgree(roles: map<string, Role>, id: int)
    requires WellFormed(roles)
    requires forall n :: n in roles ==> IsUpperCase(n)
    requires GetByID(roles, id).Ok?
    ensures GetByName(roles, GetByID(roles, id).value.name) == GetByID(roles, id)
  {
    UpperCaseIsFixed(GetByID(roles, id).value.name);
  }

  /** An already upper-case name is looked up as it is. */
  lemma UpperCaseNameIsKey(roles: map<string, Role>, name: string)
    requires IsUpperCase(name)
    ensures GetByName(roles, name).Ok? <==> name in roles
    ensures name in roles ==> GetByName(roles, name) == Ok(roles[name])
  {
    UpperCaseIsFixed(name);
  }
}
