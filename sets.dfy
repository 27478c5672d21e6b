/** Facts about finite sets of integers shared by the index and the rule sets. */
module Sets {
  /** A set that is not empty has an element to pick. */
  lemma NonEmpty(s: set<int>)
    requires s != {}
    ensures exists x :: x in s
  {
    if forall x :: x !in s {
      assert false;
    }
  }
}
