/** The backend's account and news endpoints: logging in against the user table,
    registering a user with a salted password hash, and listing the news. The password
    hasher and the serializer's per-field checks belong to the web framework and are
    parameters here; the table's unique e-mail constraint is an invariant. */
module BackendViews {
  import opened Optional

  /** `make_password(password, salt)`. */
  type Hasher = (string, string) -> string

  /** The framework's own checks on a given field value (length, e-mail form), as their
      messages, in order; none when the value passes. */
  type FieldCheck = (string, string) -> seq<string>

  const Salt: string := "8b4f6b2cc1868d75ef79e5cfb8779c11b6a374bf0fce05b485581bf4e1e25b96c8c2855015de8449"

  const HttpOk: int := 200
  /** An unhandled exception in a view. */
  const HttpServerError: int := 500

  datatype User = User(id: nat, name: string, email: string, password: string)

  datatype NewsArticle = NewsArticle(id: nat, title: string, summary: string, content: string,
                                     publishedDate: string, author: string, active: bool, pinned: bool,
                                     mainImage: Option<string>)

  /** A JSON body: the flag, the message and, on some replies, the user or the news. */
  datatype Body = Body(success: bool, message: string, user: Option<(nat, string)>,
                       newsArticles: Option<seq<NewsArticle>>)

  datatype Response = Response(status: int, body: Option<Body>)

  /** The unique constraint on `User.email`. */
  predicate UniqueEmails(users: seq<User>) {
    forall i, j :: 0 <= i < j < |users| ==> users[i].email != users[j].email
  }

  /** `User.objects.get(email=...)`, on a table whose e-mails are unique. */
  function FindUser(users: seq<User>, email: string): (u: Option<User>)
    ensures u.Some? ==> u.value in users && u.value.email == email
    ensures u.None? ==> forall v :: v in users ==> v.email != email
  {
    if users == [] then None
    else if users[0].email == email then Some(users[0])
    else FindUser(users[1..], email)
  }

  /** In a table with unique e-mails the user found is the only one with that e-mail. */
  lemma {:induction false} FindUserUnique(users: seq<User>, email: string, v: User)
    requires UniqueEmails(users) && v in users && v.email == email
    ensures FindUser(users, email) == Some(v)
  {
    if users[0] != v {
      assert users[0].email != email by {
        var j :| 0 <= j < |users| && users[j] == v;
        assert j != 0;
      }
      assert UniqueEmails(users[1..]) by {
        forall i, j | 0 <= i < j < |users[1..]| ensures users[1..][i].email != users[1..][j].email {
          assert users[1..][i] == users[i + 1] && users[1..][j] == users[j + 1];
        }
      }
      FindUserUnique(users[1..], email, v);
    }
  }

  const LoginFailed: Body := Body(false, "Login inv\U{00E1}lido", None, None)
  const LoginSucceeded: Body := Body(true, "Login efetuado com sucesso!", None, None)

  /** `LoginView.post`: without an e-mail or a password in the request the view fails;
      otherwise it succeeds exactly when a user has that e-mail and the salted hash of the
      password as stored password. Both kinds of failure give the same body. */
  function Login(users: seq<User>, data: map<string, string>, makePassword: Hasher): (r: Response)
    requires UniqueEmails(users)
    ensures "email" !in data || "password" !in data ==> r == Response(HttpServerError, None)
    ensures "email" in data && "password" in data ==>
      r.status == HttpOk && r.body.Some?
      && (r.body.value.success <==> exists u :: u in users && u.email == data["email"]
                                             && u.password == makePassword(data["password"], Salt))
      && r.body.value == (if r.body.value.success then LoginSucceeded else LoginFailed)
  {
    if "email" !in data || "password" !in data then Response(HttpServerError, None)
    else
      var hashed := makePassword(data["password"], Salt);
      match FindUser(users, data["email"])
      case None => Response(HttpOk, Some(LoginFailed))
      case Some(user) =>
        if user.password != hashed then
          FindUsersPassword(users, data["email"], hashed);
          Response(HttpOk, Some(LoginFailed))
        else Response(HttpOk, Some(LoginSucceeded))
  }

  /** With unique e-mails, no other user than the one found has that e-mail and hash. */
  lemma FindUsersPassword(users: seq<User>, email: string, hashed: string)
    requires UniqueEmails(users) && FindUser(users, email).Some? && FindUser(users, email).value.password != hashed
    ensures !exists u :: u in users && u.email == email && u.password == hashed
  {
    if exists u :: u in users && u.email == email && u.password == hashed {
      var u :| u in users && u.email == email && u.password == hashed;
      FindUserUnique(users, email, u);
    }
  }

  /** An unknown e-mail and a wrong password cannot be told apart from the reply. */
  lemma LoginFailuresAlike(users: seq<User>, unknown: map<string, string>, wrong: map<string, string>, makePassword: Hasher)
    requires UniqueEmails(users)
    requires "email" in unknown && "password" in unknown && FindUser(users, unknown["email"]).None?
    requires "email" in wrong && "password" in wrong && FindUser(users, wrong["email"]).Some?
    requires FindUser(users, wrong["email"]).value.password != makePassword(wrong["password"], Salt)
    ensures Login(users, unknown, makePassword) == Login(users, wrong, makePassword)
  {
    FindUsersPassword(users, wrong["email"], makePassword(wrong["password"], Salt));
  }

  /** The login view as the sign-in page reads it: the same checks and messages, with the
      user's id and name in the success body. */
  function LoginWithUser(users: seq<User>, data: map<string, string>, makePassword: Hasher): (r: Response)
    requires UniqueEmails(users)
    ensures r.status == Login(users, data, makePassword).status
    ensures r.body.Some? <==> Login(users, data, makePassword).body.Some?
    ensures r.body.Some? ==>
      r.body.value.success == Login(users, data, makePassword).body.value.success
      && r.body.value.message == Login(users, data, makePassword).body.value.message
      && (r.body.value.success ==> "email" in data && FindUser(users, data["email"]).Some?
                                   && var u := FindUser(users, data["email"]).value; r.body.value.user == Some((u.id, u.name)))
  {
    var r := Login(users, data, makePassword);
    if r.body.Some? && r.body.value.success then
      var u := FindUser(users, data["email"]).value;
      Response(r.status, Some(r.body.value.(user := Some((u.id, u.name)))))
    else r
  }

  // ------------------------------------------------------------------ registration

  /** The serializer's writable fields, in their declared order. */
  const Fields: seq<string> := ["name", "email", "password"]

  /** The message of the unique validator on `email`. */
  const EmailTaken: string := "user with this email already exists."

  predicate Taken(users: seq<User>, email: string) {
    exists u :: u in users && u.email == email
  }

  /** The message for a missing field. */
  const Required: string := "This field is required."

  /** The messages for one field: a missing one is required; a given one gets the
      framework's checks and, for a taken e-mail, the unique validator's message. */
  function FieldErrors(users: seq<User>, data: map<string, string>, check: FieldCheck, field: string): (msgs: seq<string>)
    ensures field !in data ==> msgs == [Required]
    ensures field == "email" && field in data && Taken(users, data[field]) ==> EmailTaken in msgs
  {
    if field !in data then [Required]
    else check(field, data[field]) + (if field == "email" && Taken(users, data[field]) then [EmailTaken] else [])
  }

  /** A field's entry in `serializer.errors`, when it has messages. */
  function FieldEntry(users: seq<User>, data: map<string, string>, check: FieldCheck, field: string): (e: seq<(string, seq<string>)>)
    ensures |e| <= 1 && (e == [] <==> FieldErrors(users, data, check, field) == [])
    ensures e != [] ==> e[0] == (field, FieldErrors(users, data, check, field))
  {
    var msgs := FieldErrors(users, data, check, field);
    if msgs != [] then [(field, msgs)] else []
  }

  /** `serializer.errors`: the fields with messages, in the declared field order. */
  function Errors(users: seq<User>, data: map<string, string>, check: FieldCheck): (es: seq<(string, seq<string>)>)
    ensures |es| <= |Fields|
    ensures forall k :: 0 <= k < |es| ==> es[k].1 != []
    ensures es == [] <==> FieldErrors(users, data, check, "name") == [] && FieldErrors(users, data, check, "email") == []
                          && FieldErrors(users, data, check, "password") == []
  {
    var name := FieldEntry(users, data, check, "name");
    var email := FieldEntry(users, data, check, "email");
    var password := FieldEntry(users, data, check, "password");
    assert |Fields| == 3;
    JoinEntries(name, email, password);
    name + email + password
  }

  /** Three entries of at most one field each, joined. */
  lemma JoinEntries(a: seq<(string, seq<string>)>, b: seq<(string, seq<string>)>, c: seq<(string, seq<string>)>)
    requires |a| <= 1 && |b| <= 1 && |c| <= 1
    requires a != [] ==> a[0].1 != []
    requires b != [] ==> b[0].1 != []
    requires c != [] ==> c[0].1 != []
    ensures |a + b + c| <= 3
    ensures forall k :: 0 <= k < |a + b + c| ==> (a + b + c)[k].1 != []
    ensures a + b + c == [] <==> a == [] && b == [] && c == []
  {
    var es := a + b + c;
    forall k | 0 <= k < |es| ensures es[k].1 != [] {
      if k < |a| {
        assert es[k] == a[0];
      } else if k < |a| + |b| {
        assert es[k] == b[0];
      } else {
        assert es[k] == c[0];
      }
    }
  }

  /** The failure message: the first message of each field, one after the other. */
  function FirstErrors(es: seq<(string, seq<string>)>): string
    requires forall k :: 0 <= k < |es| ==> es[k].1 != []
  {
    if es == [] then "" else es[0].1[0] + FirstErrors(es[1..])
  }

  /** The loop that builds the failure message. */
  method JoinFirstErrors(es: seq<(string, seq<string>)>) returns (message: string)
    requires forall k :: 0 <= k < |es| ==> es[k].1 != []
    ensures message == FirstErrors(es)
  {
    message := "";
    var k := 0;
    while k < |es|
      invariant 0 <= k <= |es|
      invariant message + FirstErrors(es[k..]) == FirstErrors(es)
    {
      assert es[k..][1..] == es[k + 1..];
      message := message + es[k].1[0];
      k := k + 1;
    }
    assert es[k..] == [];
  }

  const Registered: Body := Body(true, "Utilizador criado com sucesso!", None, None)

  /** `RegisterView.post` on the table and the next free id: the password in the request is
      replaced by its salted hash, and the checks see that hash; a valid request adds the
      user, an invalid one reports the messages and changes nothing. */
  function Register(users: seq<User>, nextId: nat, data: map<string, string>, makePassword: Hasher, check: FieldCheck)
    : (r: (seq<User>, nat, Response))
    ensures "password" !in data ==> r == (users, nextId, Response(HttpServerError, None))
    ensures "password" in data ==> r.2.status == HttpOk && r.2.body.Some?
  {
    if "password" !in data then (users, nextId, Response(HttpServerError, None))
    else Save(users, nextId, data["password" := makePassword(data["password"], Salt)], check)
  }

  /** The serializer's part: validate the request and save it, or report the messages. */
  function Save(users: seq<User>, nextId: nat, request: map<string, string>, check: FieldCheck)
    : (r: (seq<User>, nat, Response))
    ensures r.2.status == HttpOk && r.2.body.Some?
  {
    var es := Errors(users, request, check);
    if es == [] then
      RegisterAccepted(users, request, check);
      (users + [User(nextId, request["name"], request["email"], request["password"])], nextId + 1,
       Response(HttpOk, Some(Registered)))
    else (users, nextId, Response(HttpOk, Some(Body(false, FirstErrors(es), None, None))))
  }

  /** What was entered is never stored: a registered user's password is the salted hash of
      the one in the request; the other fields are the request's. */
  lemma RegisterStoresHash(users: seq<User>, nextId: nat, data: map<string, string>, makePassword: Hasher, check: FieldCheck)
    requires Register(users, nextId, data, makePassword, check).2.body == Some(Registered)
    ensures var (users', nextId', _) := Register(users, nextId, data, makePassword, check);
      "password" in data && "name" in data && "email" in data && nextId' == nextId + 1
      && users' == users + [User(nextId, data["name"], data["email"], makePassword(data["password"], Salt))]
  {
    var hashed := data["password" := makePassword(data["password"], Salt)];
    RegisterAccepted(users, hashed, check);
  }

  /** An accepted request carries every field, and its e-mail is free. */
  lemma RegisterAccepted(users: seq<User>, data: map<string, string>, check: FieldCheck)
    requires Errors(users, data, check) == []
    ensures "name" in data && "email" in data && "password" in data
    ensures !Taken(users, data["email"])
  {
  }

  /** The failure message is the first message of every failing field, in field order. */
  lemma RegisterRefusal(users: seq<User>, nextId: nat, data: map<string, string>, makePassword: Hasher, check: FieldCheck)
    requires "password" in data
    requires var hashed := data["password" := makePassword(data["password"], Salt)];
      Errors(users, hashed, check) != []
    ensures var (users', nextId', r) := Register(users, nextId, data, makePassword, check);
      var hashed := data["password" := makePassword(data["password"], Salt)];
      users' == users && nextId' == nextId
      && r == Response(HttpOk, Some(Body(false, FirstErrors(Errors(users, hashed, check)), None, None)))
  {
  }

  /** Registering an e-mail already in the table fails and leaves the table alone. */
  lemma SecondRegistrationFails(users: seq<User>, nextId: nat, data: map<string, string>, makePassword: Hasher, check: FieldCheck)
    requires "password" in data && "email" in data && Taken(users, data["email"])
    ensures Register(users, nextId, data, makePassword, check).0 == users
    ensures Register(users, nextId, data, makePassword, check).2.body.value.success == false
  {
    var hashed := data["password" := makePassword(data["password"], Salt)];
    assert FieldErrors(users, hashed, check, "email") != [];
  }

  /** The table's invariant: unique e-mails and ids below the next free one. */
  predicate TableValid(users: seq<User>, nextId: nat) {
    UniqueEmails(users) && forall u :: u in users ==> u.id < nextId
  }

  /** Adding a user with a free e-mail under the next id keeps the invariant. */
  lemma AddUserKeepsTable(users: seq<User>, nextId: nat, u: User)
    requires TableValid(users, nextId) && !Taken(users, u.email) && u.id == nextId
    ensures TableValid(users + [u], nextId + 1)
  {
    var users' := users + [u];
    forall i, j | 0 <= i < j < |users'| ensures users'[i].email != users'[j].email {
      if j == |users| {
        assert users'[i] in users;
      } else {
        assert users'[i] == users[i] && users'[j] == users[j];
      }
    }
  }

  /** Registration keeps the invariant. */
  lemma RegisterKeepsTable(users: seq<User>, nextId: nat, data: map<string, string>, makePassword: Hasher, check: FieldCheck)
    requires TableValid(users, nextId)
    ensures var (users', nextId', _) := Register(users, nextId, data, makePassword, check); TableValid(users', nextId')
  {
    if "password" in data {
      var hashed := data["password" := makePassword(data["password"], Salt)];
      if Errors(users, hashed, check) == [] {
        RegisterAccepted(users, hashed, check);
        AddUserKeepsTable(users, nextId, User(nextId, hashed["name"], hashed["email"], hashed["password"]));
      }
    }
  }

  /** Since the salt is fixed, the password given at registration logs the user in. */
  lemma RegisterThenLogin(users: seq<User>, nextId: nat, data: map<string, string>, makePassword: Hasher, check: FieldCheck)
    requires TableValid(users, nextId) && "email" in data && "password" in data
    requires Register(users, nextId, data, makePassword, check).2.body == Some(Registered)
    ensures var users' := Register(users, nextId, data, makePassword, check).0;
      UniqueEmails(users')
      && Login(users', map["email" := data["email"], "password" := data["password"]], makePassword)
         == Response(HttpOk, Some(LoginSucceeded))
  {
    RegisterStoresHash(users, nextId, data, makePassword, check);
    RegisterKeepsTable(users, nextId, data, makePassword, check);
    var users' := Register(users, nextId, data, makePassword, check).0;
    var u := User(nextId, data["name"], data["email"], makePassword(data["password"], Salt));
    LoginAs(users', u, data["password"], makePassword);
  }

  /** A user whose stored password is the hash of `password` logs in with it. */
  lemma LoginAs(users: seq<User>, u: User, password: string, makePassword: Hasher)
    requires UniqueEmails(users) && u in users && u.password == makePassword(password, Salt)
    ensures Login(users, map["email" := u.email, "password" := password], makePassword) == Response(HttpOk, Some(LoginSucceeded))
  {
    var request := map["email" := u.email, "password" := password];
    assert request["email"] == u.email && request["password"] == password;
  }

  // ------------------------------------------------------------------ news

  const NewsListed: string := "Not\U{00ED}cias obtidas com sucesso!"

  /** `NewsArticleView.get`: every article, in table order, with success. Listing all
      articles cannot raise the view's `DoesNotExist`, so its failure branch is unreachable. */
  function NewsList(articles: seq<NewsArticle>): (r: Response)
    ensures r.status == HttpOk && r.body.Some? && r.body.value.success
    ensures r.body.value.newsArticles == Some(articles)
  {
    Response(HttpOk, Some(Body(true, NewsListed, None, Some(articles))))
  }

  /** The backend's user table. */
  class Database {
    var users: seq<User>
    var nextId: nat
    const makePassword: Hasher
    const check: FieldCheck

    predicate Valid()
      reads this
    {
      TableValid(users, nextId)
    }

    constructor (makePassword0: Hasher, check0: FieldCheck)
      ensures Valid() && users == [] && makePassword == makePassword0 && check == check0
    {
      users := [];
      nextId := 1;
      makePassword := makePassword0;
      check := check0;
    }

    method LoginPost(data: map<string, string>) returns (r: Response)
      requires Valid()
      ensures r == Login(users, data, makePassword)
    {
      if "email" !in data || "password" !in data {
        return Response(HttpServerError, None);
      }
      var hashed := makePassword(data["password"], Salt);
      var user := FindUser(users, data["email"]);
      if user.None? || user.value.password != hashed {
        r := Response(HttpOk, Some(LoginFailed));
      } else {
        r := Response(HttpOk, Some(LoginSucceeded));
      }
    }

    /** Overwrites the request's password with its hash, then checks and saves. */
    method RegisterPost(data: map<string, string>) returns (r: Response)
      requires Valid()
      modifies this
      ensures Valid()
      ensures (users, nextId, r) == Register(old(users), old(nextId), data, makePassword, check)
    {
      if "password" !in data {
        return Response(HttpServerError, None);
      }
      var request := data["password" := makePassword(data["password"], Salt)];
      r := SaveRequest(request);
    }

    /** `serializer.is_valid()` and `serializer.save()`, or the error message. */
    method SaveRequest(request: map<string, string>) returns (r: Response)
      requires Valid()
      modifies this
      ensures Valid()
      ensures (users, nextId, r) == Save(old(users), old(nextId), request, check)
    {
      var es := Errors(users, request, check);
      if es == [] {
        RegisterAccepted(users, request, check);
        var u := User(nextId, request["name"], request["email"], request["password"]);
        assert Save(users, nextId, request, check) == (users + [u], nextId + 1, Response(HttpOk, Some(Registered)));
        AddUserKeepsTable(users, nextId, u);
        users := users + [u];
        nextId := nextId + 1;
        r := Response(HttpOk, Some(Registered));
      } else {
        var message := JoinFirstErrors(es);
        r := Response(HttpOk, Some(Body(false, message, None, None)));
        assert Save(users, nextId, request, check) == (users, nextId, r);
      }
    }
  }
}
