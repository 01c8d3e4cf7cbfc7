/** Facts about finite sets that the loops over a table's rows rely on. */
module Sets {

  /** A non-empty set has an element to pick. */
  lemma NonEmptyHasElement<T>(s: set<T>)
    requires s != {}
    ensures exists x :: x in s
  {
    if forall x :: x !in s { assert false; }
  }

  /** The same for sets of integers, such as the key set of a table indexed by id. */
  lemma NonEmptyHasInt(s: set<int>)
    requires s != {}
    ensures exists x :: x in s
  {
    if forall x :: x !in s { assert false; }
  }
}
