/** Datatypes shared by every component of the model. */
module Common {

  /** A UUID; only equality of identifiers matters to the modelled code. */
  type Id = nat

  datatype Option<+T> = None | Some(value: T)

  datatype Result<+T, +E> = Success(value: T) | Failure(error: E)

  /** Argon2 idealised: a digest verifies exactly the value it was made from. */
  datatype Digest<+T> = Digest(preimage: T)

  predicate Verifies<T(==)>(value: T, digest: Digest<T>) {
    digest.preimage == value
  }

  /** A number above every member of a set. */
  ghost function Above(s: set<Id>): (n: Id)
    ensures forall i | i in s :: i < n
  {
    if s == {} then 0
    else
      var x :| x in s;
      var m := Above(s - {x});
      assert forall i | i in s :: i == x || i in s - {x};
      if x < m then m else x + 1
  }
}
