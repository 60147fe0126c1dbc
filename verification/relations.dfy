/** The properties an `equals` method must have, stated over a binary predicate. */
module EquivalenceRelations {

  ghost predicate Reflexive<T(!new)>(eq: (T, T) -> bool) {
    forall x :: eq(x, x)
  }

  ghost predicate Symmetric<T(!new)>(eq: (T, T) -> bool) {
    forall x, y :: eq(x, y) ==> eq(y, x)
  }

  ghost predicate Transitive<T(!new)>(eq: (T, T) -> bool) {
    forall x, y, z :: eq(x, y) && eq(y, z) ==> eq(x, z)
  }

  ghost predicate Equivalence<T(!new)>(eq: (T, T) -> bool) {
    Reflexive(eq) && Symmetric(eq) && Transitive(eq)
  }
}
