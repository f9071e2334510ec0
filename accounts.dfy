/** The storefront's users, the /login handler that binds a user to the
    session, and the session lookup the /products and /place-order
    handlers repeat before doing anything (Program.cs). */
module Accounts {
  import opened Runtime
  import opened Http
  import opened Guids

  datatype User = User(id: Guid, name: string, email: string, password: string)

  /** The session key the user's Id is stored under. */
  const UserIdKey: string := "UserId"

  const InvalidCredentials: string := "Invalid credentials. Please try again."

  /** The three seed users; their Ids come from Guid.NewGuid at start-up. */
  function SeedUsers(alice: Guid, bob: Guid, charlie: Guid): seq<User>
  {
    [ User(alice, "Alice", "alice@example.com", "password1"),
      User(bob, "Bob", "bob@example.com", "password2"),
      User(charlie, "Charlie", "charlie@example.com", "password3") ]
  }

  /** No two users share an Id (Guid.NewGuid gives distinct values). */
  predicate UniqueIds(users: seq<User>)
  {
    forall i, j :: 0 <= i < |users| && 0 <= j < |users| && users[i].id == users[j].id ==> i == j
  }

  /** The login lookup's test: u.Email == email && u.Password == password,
      where email and password are the posted form values. */
  function CredentialsMatch(email: StringValues, password: StringValues): User -> bool
  {
    (u: User) => EqualsString(u.email, email) && EqualsString(u.password, password)
  }

  /** users.Find on the posted credentials. */
  function FindByCredentials(users: seq<User>, email: StringValues, password: StringValues): Option<User>
  {
    Find(users, CredentialsMatch(email, password))
  }

  /** The Id lookup's test: u.Id == userId. */
  function HasId(id: Guid): User -> bool
  {
    (u: User) => u.id == id
  }

  /** What a handler learns from the session before it does anything. */
  datatype Access =
    | Anonymous                          // UserId missing or empty
    | Malformed(exception: Exception)    // Guid.Parse threw
    | UnknownUser                        // no user has that Id
    | Known(user: User)

  /** GetString("UserId"), string.IsNullOrEmpty, Guid.Parse and
      users.Find(u => u.Id == userId), in that order. */
  function CurrentUser(users: seq<User>, session: map<string, string>): (a: Access)
    ensures a == Anonymous <==> IsNullOrEmpty(GetString(session, UserIdKey))
    ensures a.Malformed? ==> a.exception == FormatException
    ensures a.Malformed? <==> !IsNullOrEmpty(GetString(session, UserIdKey)) && !IsGuidText(session[UserIdKey])
    ensures a.Known? ==> a.user in users && ParseGuid(session[UserIdKey]) == Returns(a.user.id)
    ensures a == UnknownUser ==> forall i :: 0 <= i < |users| ==> Returns(users[i].id) != ParseGuid(session[UserIdKey])
  {
    var text := GetString(session, UserIdKey);
    if IsNullOrEmpty(text) then Anonymous
    else
      match ParseGuid(text.value)
      case Throws(e) => Malformed(e)
      case Returns(id) =>
        match Find(users, HasId(id))
        case None => UnknownUser
        case Some(u) => Known(u)
  }

  /** POST /login: the first user whose email and password both match is
      bound to the session and the browser is sent to /products; when no
      user matches, the session is left alone and an error text is written. */
  method Login(session: Session, users: seq<User>, email: StringValues, password: StringValues)
    returns (response: Response)
    modifies session
    ensures match FindByCredentials(users, email, password)
      case Some(u) =>
        session.values == old(session.values)[UserIdKey := GuidText(u.id)] &&
        response == Redirect("/products")
      case None =>
        session.values == old(session.values) &&
        response == Text(200, InvalidCredentials)
  {
    var user := FindByCredentials(users, email, password);
    if user.Some? {
      session.SetString(UserIdKey, GuidText(user.value.id));
      response := Redirect("/products");
    } else {
      response := Text(200, InvalidCredentials);
    }
  }

  /** The user the login lookup picks is the first one, in list order,
      whose email and password are exactly the single posted values. */
  lemma LoginPicksFirstMatch(users: seq<User>, email: string, password: string, i: nat)
    requires i < |users| && users[i].email == email && users[i].password == password
    requires forall j :: 0 <= j < i ==> users[j].email != email || users[j].password != password
    ensures FindByCredentials(users, [email], [password]) == Some(users[i])
  {
    FindFirst(users, CredentialsMatch([email], [password]), i);
  }

  /** The login lookup fails when no user has both the email and the
      password, and when either field is missing or posted twice. */
  lemma LoginRejects(users: seq<User>, email: StringValues, password: StringValues)
    requires |email| != 1 || |password| != 1 ||
             forall j :: 0 <= j < |users| ==> users[j].email != email[0] || users[j].password != password[0]
    ensures FindByCredentials(users, email, password) == None
  {
  }

  /** After a successful login the session resolves to exactly the user
      who logged in, provided user Ids are distinct. */
  lemma LoginThenKnown(users: seq<User>, session: map<string, string>, email: StringValues, password: StringValues)
    requires UniqueIds(users)
    requires FindByCredentials(users, email, password).Some?
    ensures var u := FindByCredentials(users, email, password).value;
      CurrentUser(users, session[UserIdKey := GuidText(u.id)]) == Known(u)
  {
    var u := FindByCredentials(users, email, password).value;
    var after := session[UserIdKey := GuidText(u.id)];
    ParseGuidText(u.id);
    assert GetString(after, UserIdKey) == Some(GuidText(u.id));
    var i :| 0 <= i < |users| && users[i] == u;
    FindUnique(users, HasId(u.id), i);
  }

  /** The seed data: Alice's credentials log in Alice; her password with
      Bob's email logs in nobody. */
  lemma SeedLogins(a: Guid, b: Guid, c: Guid)
    ensures FindByCredentials(SeedUsers(a, b, c), ["alice@example.com"], ["password1"]) ==
            Some(User(a, "Alice", "alice@example.com", "password1"))
    ensures FindByCredentials(SeedUsers(a, b, c), ["bob@example.com"], ["password1"]) == None
  {
    LoginPicksFirstMatch(SeedUsers(a, b, c), "alice@example.com", "password1", 0);
    LoginRejects(SeedUsers(a, b, c), ["bob@example.com"], ["password1"]);
  }
}
