/** Small shared types. */
module Collections {
  datatype Option<T> = None | Some(value: T)

  ghost predicate NoDuplicates(list: seq<nat>) {
    forall i, j :: 0 <= i < j < |list| ==> list[i] != list[j]
  }

  /** A guard for facts that are to stay folded: a quantifier over it opens only where it is named. */
  ghost predicate Look(z: nat) {
    true
  }
}
