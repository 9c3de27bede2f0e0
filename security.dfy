/** The security collaborators the services are injected with.  Their
    implementations (JWT signing, BCrypt) are not part of this model, so each
    is a record of functions that every operation receives as a parameter
    about which nothing is known unless a lemma says so. */
module Security {

  /** The JWT helper: `generate(phone)` signs a fresh access token for a phone
      number, `isExpired(token)` compares the embedded expiry with the current
      clock, `phoneOf(token)` reads the subject back. */
  datatype JwtUtils = JwtUtils(
    generate: string -> string,
    isExpired: string -> bool,
    phoneOf: string -> string)

  /** The password encoder: `encode(raw)` hashes, `matches(raw, hash)` checks. */
  datatype PasswordEncoder = PasswordEncoder(
    encode: string -> string,
    matches: (string, string) -> bool)
}
