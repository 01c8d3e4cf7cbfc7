/**
 * StatusService: lookups over the status table, a finite map from status id
 * to Status. The table is read, never written.
 */
module StatusService {
  import opened Results
  import opened Text
  import opened Sets

  datatype Status = Status(id: int, name: string)

  /** The table's primary key is the id, and the status name column is unique. */
  ghost predicate WellFormed(statuses: map<int, Status>)
  {
    && (forall k :: k in statuses ==> statuses[k].id == k)
    && (forall k1, k2 :: k1 in statuses && k2 in statuses && statuses[k1].name == statuses[k2].name ==> k1 == k2)
  }

  /** The names stored in the table. */
  ghost function Names(statuses: map<int, Status>): set<string>
  {
    set k | k in statuses :: statuses[k].name
  }

  /** findStatusByName: the stored status whose name is the upper-cased argument. */
  function FindStatusByName(statuses: map<int, Status>, statusName: string): (r: Result<Status>)
    requires WellFormed(statuses)
    ensures r.Ok? <==> ToUpper(statusName) in Names(statuses)
    ensures r.Ok? ==> r.value.id in statuses && statuses[r.value.id] == r.value
    ensures r.Ok? ==> r.value.name == ToUpper(statusName)
    ensures r.Err? ==> r.error == StatusNotFound
  {
    var upper := ToUpper(statusName);
    if exists k :: k in statuses && statuses[k].name == upper then
      var k :| k in statuses && statuses[k].name == upper;
      Ok(statuses[k])
    else
      Err(StatusNotFound)
  }

  /** findStatusById */
  function FindStatusById(statuses: map<int, Status>, statusId: int): (r: Result<Status>)
    ensures r.Ok? <==> statusId in statuses
    ensures r.Ok? ==> r.value == statuses[statusId]
    ensures WellFormed(statuses) && r.Ok? ==> r.value.id == statusId
    ensures r.Err? ==> r.error == StatusNotFound
  {
    if statusId in statuses then Ok(statuses[statusId]) else Err(StatusNotFound)
  }

  /**
   * isStatusValid: collects every stored name into a set, then asks whether
   * the upper-cased argument is one of them.
   */
  method IsStatusValid(statuses: map<int, Status>, statusName: string) returns (valid: bool)
    ensures valid <==> ToUpper(statusName) in Names(statuses)
    ensures WellFormed(statuses) ==> (valid <==> FindStatusByName(statuses, statusName).Ok?)
  {
    var names: set<string> := {};
    var rest := statuses.Keys;
    while rest != {}
      invariant rest <= statuses.Keys
      invariant names == set k | k in statuses.Keys - rest :: statuses[k].name
      decreases rest
    {
      NonEmptyHasInt(rest);
      var k :| k in rest;
      names := names + {statuses[k].name};
      rest := rest - {k};
    }
    valid := ToUpper(statusName) in names;
  }

  /** Validating an upper-cased name gives the same answer as validating the name itself. */
  lemma PreUpperCasedAgrees(statuses: map<int, Status>, statusName: string)
    ensures ToUpper(ToUpper(statusName)) in Names(statuses) <==> ToUpper(statusName) in Names(statuses)
  {
    ToUpperIdempotent(statusName);
  }

  /** Names that differ only in case resolve to the same status. */
  lemma FindByNameIgnoresCase(statuses: map<int, Status>, a: string, b: string)
    requires WellFormed(statuses)
    requires EqualIgnoringCase(a, b)
    ensures FindStatusByName(statuses, a) == FindStatusByName(statuses, b)
  {
    ToUpperEqualIffEqualIgnoringCase(a, b);
  }

  /** Two successful lookups by name that agree up to case find the same row. */
  lemma FoundByNameIsUnique(statuses: map<int, Status>, a: string, b: string)
    requires WellFormed(statuses)
    requires FindStatusByName(statuses, a).Ok? && FindStatusByName(statuses, b).Ok?
    ensures FindStatusByName(statuses, a) == FindStatusByName(statuses, b) <==> EqualIgnoringCase(a, b)
  {
    ToUpperEqualIffEqualIgnoringCase(a, b);
  }
}
