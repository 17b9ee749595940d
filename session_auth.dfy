/**
 * Session-based authentication: the tables `users` and `user_sessions`, the
 * lookups the routes run against them, and the routes GET /, POST /signup
 * and POST /login. The keyed hash is the parameter `hmac`, standing for
 * HMAC-SHA256 keyed by the salt; salts and the identifiers the database
 * assigns to new rows are parameters too.
 */
module SessionAuth {
  import opened Wrappers

  /** A row of `users`: `password` holds the hash, never the password. */
  datatype User = User(id: string, name: string, email: string, password: string, salt: string)

  /** A row of `user_sessions`. */
  datatype Session = Session(id: string, userId: string)

  /** The row GET / selects: session id, its user's id, name and email. */
  datatype SessionView = SessionView(id: string, userId: string, name: string, email: string)

  /** GET / answers 401 "You are not logged in" or 200 with the session's row. */
  datatype ProfileReply = NotLoggedIn | Data(view: SessionView)

  /** POST /signup answers 400 "already exists" or 201 with the new user's id. */
  datatype SignupReply = EmailExists | SignedUp(userId: string)

  /** POST /login answers 404, 400 "Incorrect Password!!" or 200 with the new session's id. */
  datatype LoginReply = UserNotFound | IncorrectPassword | LoggedIn(sessionId: string)

  /** The checks POST /login runs before it creates a session. */
  datatype Verdict = UnknownEmail | WrongPassword | Verified(user: User)

  // ---------------------------------------------------------------------
  // Table constraints

  /** `id` is the primary key of `users`. */
  predicate UserIdsUnique(users: seq<User>)
  {
    forall a, b :: a in users && b in users && a.id == b.id ==> a == b
  }

  /** `email` is unique in `users`. */
  predicate EmailsUnique(users: seq<User>)
  {
    forall a, b :: a in users && b in users && a.email == b.email ==> a == b
  }

  /** `id` is the primary key of `user_sessions`. */
  predicate SessionIdsUnique(sessions: seq<Session>)
  {
    forall a, b :: a in sessions && b in sessions && a.id == b.id ==> a == b
  }

  /** `user_sessions.userId` references `users.id`. */
  predicate SessionsReferenceUsers(users: seq<User>, sessions: seq<Session>)
  {
    forall s :: s in sessions ==> exists u :: u in users && u.id == s.userId
  }

  // ---------------------------------------------------------------------
  // Lookups

  function EmailOf(u: User): string
  {
    u.email
  }

  function IdOf(u: User): string
  {
    u.id
  }

  /**
   * `SELECT ... FROM users WHERE column = value`, first row: the sign-up and
   * login lookups by email (`EmailOf`) and the join's match on the user id
   * (`IdOf`).
   */
  function FindBy(users: seq<User>, column: User -> string, value: string): (r: Option<User>)
    ensures r.None? <==> forall u :: u in users ==> column(u) != value
    ensures r.Some? ==> r.value in users && column(r.value) == value
  {
    if users == [] then None
    else if column(users[0]) == value then Some(users[0])
    else FindBy(users[1..], column, value)
  }

  /** Emails are unique, so the lookup finds the one user with that email. */
  lemma FindByEmailUnique(users: seq<User>, u: User)
    requires EmailsUnique(users) && u in users
    ensures FindBy(users, EmailOf, u.email) == Some(u)
  {
  }

  function View(s: Session, u: User): SessionView
  {
    SessionView(s.id, u.id, u.name, u.email)
  }

  /**
   * The join of GET /: sessions with id `sid` paired with the user whose id
   * is the session's userId; the first such row. A user with no session
   * has a null session id in the right join, which never equals `sid`.
   */
  function SessionJoin(users: seq<User>, sessions: seq<Session>, sid: string): (r: Option<SessionView>)
    ensures r.None? <==> forall s, u :: s in sessions && u in users && s.id == sid ==> u.id != s.userId
    ensures r.Some? ==> exists s, u :: s in sessions && u in users && s.id == sid && u.id == s.userId && r.value == View(s, u)
  {
    if sessions == [] then None
    else if sessions[0].id == sid && FindBy(users, IdOf, sessions[0].userId).Some? then
      Some(View(sessions[0], FindBy(users, IdOf, sessions[0].userId).value))
    else SessionJoin(users, sessions[1..], sid)
  }

  /** The hash check of POST /login: `hmac(storedSalt, password)` against the stored hash. */
  predicate PasswordMatches(u: User, password: string, hmac: (string, string) -> string)
  {
    hmac(u.salt, password) == u.password
  }

  /** POST /login's decision: no user with the email, a hash mismatch, or the user. */
  function CheckCredentials(users: seq<User>, email: string, password: string,
                            hmac: (string, string) -> string): (v: Verdict)
    ensures v == UnknownEmail <==> forall u :: u in users ==> u.email != email
    ensures v == WrongPassword ==> exists u :: u in users && u.email == email && !PasswordMatches(u, password, hmac)
    ensures v.Verified? ==> v.user in users && v.user.email == email && PasswordMatches(v.user, password, hmac)
  {
    match FindBy(users, EmailOf, email)
    case None => UnknownEmail
    case Some(u) => if PasswordMatches(u, password, hmac) then Verified(u) else WrongPassword
  }

  /** With unique emails the decision is fixed by the one user with that email: verified exactly when the hash matches. */
  lemma CheckCredentialsOfUser(users: seq<User>, u: User, password: string, hmac: (string, string) -> string)
    requires EmailsUnique(users) && u in users
    ensures CheckCredentials(users, u.email, password, hmac) ==
      if PasswordMatches(u, password, hmac) then Verified(u) else WrongPassword
  {
  }

  /**
   * Sign-up then login: a user signed up with password `password`, salt
   * `salt` and the same `hmac`, into a table where the email was free, is
   * verified by login with that email and password.
   */
  lemma SignupThenLogin(users: seq<User>, newId: string, name: string, email: string,
                                           password: string, salt: string, hmac: (string, string) -> string)
    requires FindBy(users, EmailOf, email).None?
    ensures var u := User(newId, name, email, hmac(salt, password), salt);
      CheckCredentials(users + [u], email, password, hmac) == Verified(u)
  {
  }

  /** Login then GET /: the new session, whose id no earlier session had, resolves to its user. */
  lemma SessionJoinAfterLogin(users: seq<User>, sessions: seq<Session>, sid: string, u: User)
    requires UserIdsUnique(users) && u in users
    requires forall s :: s in sessions ==> s.id != sid
    ensures SessionJoin(users, sessions + [Session(sid, u.id)], sid) == Some(SessionView(sid, u.id, u.name, u.email))
  {
  }

  // ---------------------------------------------------------------------
  // The two tables and the routes over them

  class SessionStore {
    var users: seq<User>
    var sessions: seq<Session>

    ghost predicate Valid()
      reads this
    {
      && UserIdsUnique(users)
      && EmailsUnique(users)
      && SessionIdsUnique(sessions)
      && SessionsReferenceUsers(users, sessions)
    }

    constructor ()
      ensures Valid() && users == [] && sessions == []
    {
      users := [];
      sessions := [];
    }

    /**
     * GET /: no header is answered 401; otherwise the session with that id
     * and its user, or 401 when there is no such session.
     */
    method Profile(header: Option<string>) returns (r: ProfileReply)
      ensures !Present(header) ==> r == NotLoggedIn
      ensures Present(header) ==> match SessionJoin(users, sessions, header.value)
        case None => r == NotLoggedIn
        case Some(view) => r == Data(view)
    {
      if !Present(header) {
        return NotLoggedIn;
      }
      var joined := SessionJoin(users, sessions, header.value);
      match joined
      case None => r := NotLoggedIn;
      case Some(view) => r := Data(view);
    }

    /**
     * POST /signup: a taken email is answered 400 and nothing is inserted;
     * otherwise one user is appended with the salt and `hmac(salt,
     * password)` as its stored hash, and its id is returned.
     */
    method Signup(name: string, email: string, password: string, salt: string,
                  hmac: (string, string) -> string, newId: string) returns (r: SignupReply)
      requires Valid()
      requires forall u :: u in users ==> u.id != newId
      modifies this
      ensures Valid()
      ensures sessions == old(sessions)
      ensures FindBy(old(users), EmailOf, email).Some? ==> r == EmailExists && users == old(users)
      ensures FindBy(old(users), EmailOf, email).None? ==>
        && users == old(users) + [User(newId, name, email, hmac(salt, password), salt)]
        && r == SignedUp(newId)
    {
      var existing := FindBy(users, EmailOf, email);
      if existing.Some? {
        return EmailExists;
      }
      var hashed := hmac(salt, password);
      users := users + [User(newId, name, email, hashed, salt)];
      r := SignedUp(newId);
    }

    /**
     * POST /login: an unknown email is answered 404 and a hash mismatch 400,
     * both without a new session; otherwise one session for the user is
     * appended under the id the database assigns, and that id is returned.
     */
    method Login(email: string, password: string, hmac: (string, string) -> string,
                 newSessionId: string) returns (r: LoginReply)
      requires Valid()
      requires forall s :: s in sessions ==> s.id != newSessionId
      modifies this
      ensures Valid()
      ensures users == old(users)
      ensures match CheckCredentials(users, email, password, hmac)
        case UnknownEmail => r == UserNotFound && sessions == old(sessions)
        case WrongPassword => r == IncorrectPassword && sessions == old(sessions)
        case Verified(u) => r == LoggedIn(newSessionId) && sessions == old(sessions) + [Session(newSessionId, u.id)]
    {
      var verdict := CheckCredentials(users, email, password, hmac);
      match verdict
      case UnknownEmail => r := UserNotFound;
      case WrongPassword => r := IncorrectPassword;
      case Verified(u) =>
        sessions := sessions + [Session(newSessionId, u.id)];
        r := LoggedIn(newSessionId);
    }
  }

  /**
   * Sign-up, login and GET / in sequence on one store, for an email that is
   * free: the sign-up succeeds, the login with the same password succeeds,
   * and the new session id resolves to the new user.
   */
  method SignupLoginProfile(store: SessionStore, name: string, email: string, password: string, salt: string,
                            hmac: (string, string) -> string, userId: string, sessionId: string)
    returns (signed: SignupReply, logged: LoginReply, profile: ProfileReply)
    requires store.Valid()
    requires FindBy(store.users, EmailOf, email).None?
    requires forall u :: u in store.users ==> u.id != userId
    requires forall s :: s in store.sessions ==> s.id != sessionId
    requires sessionId != ""
    modifies store
    ensures store.Valid()
    ensures signed == SignedUp(userId)
    ensures logged == LoggedIn(sessionId)
    ensures profile == Data(SessionView(sessionId, userId, name, email))
  {
    signed := store.Signup(name, email, password, salt, hmac, userId);
    var u := User(userId, name, email, hmac(salt, password), salt);
    SignupThenLogin(old(store.users), userId, name, email, password, salt, hmac);
    logged := store.Login(email, password, hmac, sessionId);
    SessionJoinAfterLogin(store.users, old(store.sessions), sessionId, u);
    profile := store.Profile(Some(sessionId));
  }
}
