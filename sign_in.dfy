/** The login form: its two field checks, the request, and the session entries written
    into the browser's store from the reply. */
module SignIn {
  import opened Optional
  import opened JsText
  import opened FormRules
  import Browser
  import BackendViews

  const ContentPath: string := "/admin/content"

  /** The reply as the page reads it: `success`, `message` and `user.id`/`user.name`,
      when there is a user. */
  datatype LoginReply = LoginReply(success: bool, message: string, user: Option<(nat, string)>)

  /** What submitting the form comes to. The login page expects a user in a successful
      reply; without one, reading its id throws and the handler stops. */
  datatype LoginOutcome =
    | NotSent
    | LoggedIn(path: string)
    | Refused(message: string)
    | Thrown

  predicate ValidSignIn(email: string, password: string) {
    EmailValid(email) && PasswordValid(password)
  }

  /** The store and the outcome after a reply; `None` is a request that failed. */
  function AfterLogin(items: map<string, string>, email: string, reply: Option<LoginReply>)
    : (r: (map<string, string>, LoginOutcome))
    ensures reply.None? ==> r == (items, Thrown)
    ensures reply.Some? && reply.value.success && reply.value.user.Some? ==>
      r.1 == LoggedIn(ContentPath)
      && r.0 == items["isLoggedIn" := "true"]["email" := email]
                     ["userId" := IntToString(reply.value.user.value.0)]["username" := reply.value.user.value.1]
    ensures reply.Some? && reply.value.success && reply.value.user.None? ==>
      r == (items["isLoggedIn" := "true"]["email" := email], Thrown)
    ensures reply.Some? && !reply.value.success ==>
      r == (items["isLoggedIn" := "false"]["email" := ""]["userId" := ""]["username" := ""], Refused(reply.value.message))
  {
    match reply
    case None => (items, Thrown)
    case Some(LoginReply(success, message, user)) =>
      if success then
        var loggedIn := items["isLoggedIn" := "true"]["email" := email];
        match user
        case None => (loggedIn, Thrown)
        case Some((id, name)) => (loggedIn["userId" := IntToString(id)]["username" := name], LoggedIn(ContentPath))
      else (items["isLoggedIn" := "false"]["email" := ""]["userId" := ""]["username" := ""], Refused(message))
  }

  /** A failed login clears the session; a completed one fills it. */
  lemma SessionAfterLogin(items: map<string, string>, email: string, reply: LoginReply)
    ensures var (items', o) := AfterLogin(items, email, Some(reply));
      "isLoggedIn" in items' && (items'["isLoggedIn"] == "true" <==> reply.success)
      && (o.Refused? ==> items'["email"] == "" && items'["userId"] == "" && items'["username"] == "")
      && (o.LoggedIn? ==> items'["email"] == email && items'["userId"] == IntToString(reply.user.value.0)
                          && items'["username"] == reply.user.value.1)
  {
  }

  /** What the page receives from the backend: the body's fields, or a failed request
      when the view raised an error. */
  function ReplyOf(r: BackendViews.Response): (reply: Option<LoginReply>)
    ensures reply.Some? <==> r.body.Some? && r.status == BackendViews.HttpOk
  {
    if r.body.Some? && r.status == BackendViews.HttpOk then
      Some(LoginReply(r.body.value.success, r.body.value.message, r.body.value.user))
    else None
  }

  /** With the login view as written, a correct login marks the session as logged in and
      stores the e-mail, then throws: the user id and name keep their old values and the
      page does not move on. */
  lemma CorrectLoginThrows(users: seq<BackendViews.User>, items: map<string, string>, email: string, password: string,
                           makePassword: BackendViews.Hasher)
    requires BackendViews.UniqueEmails(users)
    requires exists u :: u in users && u.email == email && u.password == makePassword(password, BackendViews.Salt)
    ensures var data := map["email" := email, "password" := password];
      var (items', o) := AfterLogin(items, email, ReplyOf(BackendViews.Login(users, data, makePassword)));
      o == Thrown && items' == items["isLoggedIn" := "true"]["email" := email]
  {
    var data := map["email" := email, "password" := password];
    assert data["email"] == email && data["password"] == password;
  }

  /** With the user in the success body, a correct login stores that user's id and name
      and goes to the content page. */
  lemma CorrectLoginStoresUser(users: seq<BackendViews.User>, items: map<string, string>, email: string, password: string,
                               makePassword: BackendViews.Hasher, u: BackendViews.User)
    requires BackendViews.UniqueEmails(users)
    requires u in users && u.email == email && u.password == makePassword(password, BackendViews.Salt)
    ensures var data := map["email" := email, "password" := password];
      var (items', o) := AfterLogin(items, email, ReplyOf(BackendViews.LoginWithUser(users, data, makePassword)));
      o == LoggedIn(ContentPath) && items'["isLoggedIn"] == "true" && items'["email"] == email
      && items'["userId"] == IntToString(u.id) && items'["username"] == u.name
  {
    var data := map["email" := email, "password" := password];
    assert data["email"] == email && data["password"] == password;
    BackendViews.FindUserUnique(users, email, u);
  }

  class SignInForm {
    var emailError: bool
    var emailErrorMessage: string
    var passwordError: bool
    var passwordErrorMessage: string

    constructor ()
      ensures !emailError && !passwordError && emailErrorMessage == "" && passwordErrorMessage == ""
    {
      emailError, passwordError := false, false;
      emailErrorMessage, passwordErrorMessage := "", "";
    }

    predicate ShowsChecks(email: string, password: string)
      reads this
    {
      emailError == !EmailValid(email) && emailErrorMessage == (if emailError then EmailMessage else "")
      && passwordError == !PasswordValid(password) && passwordErrorMessage == (if passwordError then PasswordMessage else "")
    }

    /** `validateInputs`: both checks run, each setting its own error state. */
    method ValidateInputs(email: string, password: string) returns (isValid: bool)
      modifies this
      ensures isValid == ValidSignIn(email, password)
      ensures ShowsChecks(email, password)
    {
      isValid := true;
      if !EmailValid(email) {
        emailError, emailErrorMessage := true, EmailMessage;
        isValid := false;
      } else {
        emailError, emailErrorMessage := false, "";
      }
      if !PasswordValid(password) {
        passwordError, passwordErrorMessage := true, PasswordMessage;
        isValid := false;
      } else {
        passwordError, passwordErrorMessage := false, "";
      }
    }

    /** `handleLogin`, given the reply to the request it would send: invalid fields send
        nothing and leave the store alone; otherwise the store is written key by key. */
    method HandleLogin(storage: Browser.Storage, email: string, password: string, reply: Option<LoginReply>)
      returns (o: LoginOutcome)
      modifies this, storage
      ensures ShowsChecks(email, password)
      ensures !ValidSignIn(email, password) ==> o == NotSent && storage.items == old(storage.items)
      ensures ValidSignIn(email, password) ==> (storage.items, o) == AfterLogin(old(storage.items), email, reply)
      ensures storage.documentClass == old(storage.documentClass)
    {
      var isValid := ValidateInputs(email, password);
      if !isValid {
        return NotSent;
      }
      if reply.None? {
        return Thrown;
      }
      var r := reply.value;
      if r.success {
        storage.SetItem("isLoggedIn", "true");
        storage.SetItem("email", email);
        if r.user.None? {
          return Thrown;
        }
        storage.SetItem("userId", IntToString(r.user.value.0));
        storage.SetItem("username", r.user.value.1);
        o := LoggedIn(ContentPath);
      } else {
        storage.SetItem("isLoggedIn", "false");
        storage.SetItem("email", "");
        storage.SetItem("userId", "");
        storage.SetItem("username", "");
        o := Refused(r.message);
      }
    }
  }
}
