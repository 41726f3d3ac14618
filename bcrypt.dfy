/** The password-hashing collaborator (bcrypt), as an abstract pair of operations. */
module Bcrypt {
  import opened Wrappers

  /** `GenerateFromPassword` (which may fail) and `CompareHashAndPassword`
      (true when it returns no error), with the stored hash first. */
  datatype Hasher = Hasher(hash: string -> Option<string>, verify: (string, string) -> bool)

  /** The one property the handlers rely on: a hash the hasher produced for a
      password verifies that password. */
  ghost predicate Sound(h: Hasher) {
    forall p :: h.hash(p).Some? ==> h.verify(h.hash(p).value, p)
  }
}
