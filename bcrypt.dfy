/** Password hashing (bcrypt) as the two functions the code calls: generating a hash
    from a password, which may fail, and comparing a hash with a password. */
module Bcrypt {
  import opened Wrappers

  datatype Hasher = Hasher(generate: string -> Result<string>, compare: (string, string) -> bool)

  /** The hasher's contract: a password matches the hash generated from it. */
  ghost predicate Sound(h: Hasher)
  {
    forall pw: string :: h.generate(pw).Ok? ==> h.compare(h.generate(pw).value, pw)
  }
}
