/** The rows of the two tables the account workflow reads and writes
    (`EmailVerification` and `User`) and the credential oracle. */
module Schema {
  import opened Wrappers

  /** The `verified` and `email_verified` columns hold the letters 'Y' and 'N'. */
  datatype Flag = Y | N

  /** One row of the email-verification table. Times are milliseconds. */
  datatype CodeRecord = CodeRecord(
    email: string,
    code: string,
    sentAt: int,
    verified: Flag,
    verifiedAt: Option<int>,
    userId: Option<nat>)

  /** What the credential library stores for a password. The library's hash is
      treated as injective, so the stored value can stand for the password. */
  datatype Credential = Credential(secret: string)

  /** One row of the user table: `user_id`, the login `id`, the nickname
      `name`, `email`, the credential, `rank_id` and `email_verified`. */
  datatype User = User(
    userId: nat,
    login: string,
    name: string,
    email: string,
    credential: Credential,
    rankId: nat,
    emailVerified: Flag)

  /** The rank every new account starts with (`rank_id: 1`). */
  const DefaultRankId: nat := 1

  /** `setPassword` / `register`: the credential stored for a password. */
  function Hash(password: string): Credential
  {
    Credential(password)
  }

  /** `passwordComparison` succeeding without error. */
  predicate PasswordMatches(u: User, password: string)
  {
    u.credential == Hash(password)
  }

  /** What the model assumes of the credential library: a password matches
      exactly the credential that was set from it. */
  lemma SetPasswordThenMatches(u: User, password: string, other: string)
    ensures PasswordMatches(u.(credential := Hash(password)), other) <==> other == password
  {
  }
}
