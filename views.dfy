/** The placeholder login endpoint. */
module Views {
  import opened Wrappers

  /** The body of a response: a JSON object with a single `message` or `error` field. */
  datatype Body = Message(message: string) | Error(error: string)

  datatype Response = Response(status: int, body: Body)

  const HttpOk := 200
  const HttpBadRequest := 400
  const RequiredFields := "Username and password are required."

  /** A request field counts as given when it is present and not the empty string. */
  predicate Given(field: Option<string>) {
    field.Some? && field.value != ""
  }

  /** `login_view` on the `username` and `password` fields of the request body. */
  function LoginView(username: Option<string>, password: Option<string>): Response {
    if Given(username) && Given(password) then
      Response(HttpOk, Message("Login attempt for " + username.value + "."))
    else
      Response(HttpBadRequest, Error(RequiredFields))
  }

  /** The answer is 200 with the greeting exactly when both fields are given, and 400
      with the required-fields error otherwise. */
  lemma LoginDecision(username: Option<string>, password: Option<string>)
    ensures LoginView(username, password).status == 200 <==> Given(username) && Given(password)
    ensures LoginView(username, password).status == 200 || LoginView(username, password).status == 400
    ensures LoginView(username, password).status == 200 ==>
      LoginView(username, password).body == Message("Login attempt for " + username.value + ".")
    ensures LoginView(username, password).status == 400 ==>
      LoginView(username, password).body == Error("Username and password are required.")
  {
  }

  /** A missing or empty username is refused whatever the password. */
  lemma MissingUsernameRefused(username: Option<string>, password: Option<string>)
    requires username == None || username == Some("")
    ensures LoginView(username, password) == Response(400, Error("Username and password are required."))
  {
  }

  /** A missing or empty password is refused whatever the username. */
  lemma MissingPasswordRefused(username: Option<string>, password: Option<string>)
    requires password == None || password == Some("")
    ensures LoginView(username, password) == Response(400, Error("Username and password are required."))
  {
  }
}
