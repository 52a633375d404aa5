/** The proof-of-concept credential check of the backend. */
module Auth {
  /** The fixed table of accepted users and their passwords. */
  const DummyCredentials: map<string, string> := map["admin" := "admin123", "user" := "user123"]

  /** `verify_credentials`: the user is in the table and the password is its stored one. */
  predicate VerifyCredentials(username: string, password: string) {
    username in DummyCredentials && DummyCredentials[username] == password
  }

  /** Exactly the two listed pairs are accepted. */
  lemma AcceptedPairs(username: string, password: string)
    ensures VerifyCredentials(username, password) <==>
      (username == "admin" && password == "admin123") || (username == "user" && password == "user123")
  {
  }

  /** A user missing from the table is rejected, whatever the password. */
  lemma UnknownUserRejected(username: string, password: string)
    requires username != "admin" && username != "user"
    ensures !VerifyCredentials(username, password)
  {
  }

  /** A known user with a password other than the stored one is rejected. */
  lemma WrongPasswordRejected(username: string, password: string)
    requires username in DummyCredentials && password != DummyCredentials[username]
    ensures !VerifyCredentials(username, password)
  {
  }
}
