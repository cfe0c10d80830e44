/**
  The authentication routes over the user table: `register` (the only
  operation that changes the table), `login` and `verify` (lookups), and the
  token they issue. Password hashing and token signing are the libraries'
  business; they appear here as the functions of a `Crypto` value.
*/
module Users {
  import opened Wrappers
  import opened Requests
  import Bearer

  datatype User = User(id: nat, username: string, email: string, passwordHash: string)

  /** The public fields of a user: what every response shows and what a token claims. */
  datatype Identity = Identity(id: nat, username: string, email: string)

  function PublicView(u: User): Identity {
    Identity(u.id, u.username, u.email)
  }

  /** A successful register or login: a token and the public fields, never the password hash. */
  datatype AuthReply = AuthReply(token: string, user: Identity)

  /**
    `hash` is the salted password hash, `compare` the hash check and `sign`
    the token signer over the claims `{id, username, email}` and the instant
    of signing (the token's issue time, from which its expiry follows).
  */
  datatype Crypto = Crypto(hash: string -> string, compare: (string, string) -> bool, sign: (Identity, int) -> string)

  /** The one fact assumed of the hashing library: a password matches its own hash. */
  ghost predicate CompareAcceptsOwnHash(c: Crypto) {
    forall p :: c.compare(p, c.hash(p))
  }

  datatype AuthError =
    | MissingFields               // 400 'username, email and password are required' (login: 'username and password ...')
    | WeakPassword                // 400 'Password must be at least 6 characters'
    | DuplicateUser               // 409 'User with this username/email already exists'
    | InvalidCredentials          // 401 'Invalid credentials'
    | Unauthorized(reason: Bearer.Rejection)   // 401 from the middleware
    | UserNotFound                // 401 'User not found'
    | ServerError                 // 500 'Server error'

  /** The token issued for a user at instant `now`: it claims exactly the user's public fields. */
  function SignToken(c: Crypto, u: User, now: int): string {
    c.sign(PublicView(u), now)
  }

  /**
    A token depends only on the public fields and the signing instant: two
    users who differ only in their stored hash receive the same token.
  */
  lemma TokenIgnoresPasswordHash(c: Crypto, u: User, v: User, now: int)
    requires u.id == v.id && u.username == v.username && u.email == v.email
    ensures SignToken(c, u, now) == SignToken(c, v, now)
  {
  }

  /** No two users share a username, an email or an id. */
  ghost predicate Unique(users: seq<User>) {
    forall i, j :: 0 <= i < j < |users| ==>
      users[i].username != users[j].username && users[i].email != users[j].email && users[i].id != users[j].id
  }

  /** Some user already has this username or this email. */
  predicate Taken(users: seq<User>, username: string, email: string) {
    exists u :: u in users && (u.username == username || u.email == email)
  }

  /** A password string of at least six characters. */
  predicate AcceptablePassword(password: BodyValue) {
    password.Text? && |password.s| >= 6
  }

  /** The first user with this username, as the table lookup finds it. */
  function FindByUsername(users: seq<User>, name: string): (r: Option<User>)
    ensures r.Some? ==> r.value in users && r.value.username == name
    ensures r.None? <==> forall u :: u in users ==> u.username != name
  {
    if users == [] then None
    else if users[0].username == name then Some(users[0])
    else
      assert forall u :: u in users ==> u == users[0] || u in users[1..];
      FindByUsername(users[1..], name)
  }

  /** The user with this id. */
  function FindById(users: seq<User>, id: nat): (r: Option<User>)
    ensures r.Some? ==> r.value in users && r.value.id == id
    ensures r.None? <==> forall u :: u in users ==> u.id != id
  {
    if users == [] then None
    else if users[0].id == id then Some(users[0])
    else
      assert forall u :: u in users ==> u == users[0] || u in users[1..];
      FindById(users[1..], id)
  }

  /** In a table without duplicate usernames, the user found is the only one with that name. */
  lemma {:induction false} FoundUserIsTheOne(users: seq<User>, name: string, u: User)
    requires Unique(users)
    requires u in users && u.username == name
    ensures FindByUsername(users, name) == Some(u)
  {
    if users[0] != u {
      assert users[0].username != name by {
        var k :| 0 <= k < |users| && users[k] == u;
      }
      assert u in users[1..] by {
        var k :| 0 <= k < |users| && users[k] == u;
        assert k != 0;
        assert users[1..][k - 1] == u;
      }
      FoundUserIsTheOne(users[1..], name, u);
    }
  }

  class UserTable {
    var users: seq<User>
    /** The id the next created user receives: ids are never reused. */
    var nextId: nat

    ghost predicate Valid()
      reads this
    {
      Unique(users) && forall i :: 0 <= i < |users| ==> users[i].id < nextId
    }

    constructor ()
      ensures Valid() && users == []
    {
      users := [];
      nextId := 0;
    }

    /**
      `POST /auth/register`: missing fields, then a too short or non-string
      password, then a taken username or email; otherwise one new user whose
      stored hash is the hash of the password, and a token for it.
    */
    method Register(username: Option<string>, email: Option<string>, password: BodyValue, crypto: Crypto, now: int)
      returns (r: Result<AuthReply, AuthError>)
      requires Valid()
      modifies this
      ensures Valid()
      ensures !Present(username) || !Present(email) || !Truthy(password) ==> r == Err(MissingFields)
      ensures Present(username) && Present(email) && Truthy(password) && !AcceptablePassword(password) ==>
                r == Err(WeakPassword)
      ensures (Present(username) && Present(email) && AcceptablePassword(password) &&
               Taken(old(users), username.value, email.value)) ==> r == Err(DuplicateUser)
      ensures r.Ok? <==> Present(username) && Present(email) && AcceptablePassword(password) &&
                         !Taken(old(users), username.value, email.value)
      ensures r.Err? ==> users == old(users) && nextId == old(nextId)
      ensures r.Ok? ==>
                var u := User(old(nextId), username.value, email.value, crypto.hash(password.s));
                && users == old(users) + [u]
                && nextId == old(nextId) + 1
                && r.value == AuthReply(SignToken(crypto, u, now), PublicView(u))
    {
      if !Present(username) || !Present(email) || !Truthy(password) {
        return Err(MissingFields);
      }
      if !password.Text? || |password.s| < 6 {
        return Err(WeakPassword);
      }
      if Taken(users, username.value, email.value) {
        return Err(DuplicateUser);
      }
      var u := User(nextId, username.value, email.value, crypto.hash(password.s));
      users := users + [u];
      nextId := nextId + 1;
      r := Ok(AuthReply(SignToken(crypto, u, now), PublicView(u)));
    }
  }

  /**
    `POST /auth/login`: missing fields, then an unknown username, then a
    password that does not match the stored hash; the last two give the same
    answer. A non-string password for a known user makes the hash check throw,
    which the route reports as a server error.
  */
  function Login(users: seq<User>, username: Option<string>, password: BodyValue, crypto: Crypto, now: int)
    : (r: Result<AuthReply, AuthError>)
    ensures !Present(username) || !Truthy(password) ==> r == Err(MissingFields)
    ensures Present(username) && Truthy(password) && FindByUsername(users, username.value).None? ==>
              r == Err(InvalidCredentials)
    ensures Present(username) && password.Text? && password.s != "" && FindByUsername(users, username.value).Some? ==>
              && (r.Ok? <==> crypto.compare(password.s, FindByUsername(users, username.value).value.passwordHash))
              && (r.Err? ==> r == Err(InvalidCredentials))
    ensures Present(username) && password.NonText? && password.truthy && FindByUsername(users, username.value).Some? ==>
              r == Err(ServerError)
    ensures r.Ok? ==>
              var u := FindByUsername(users, username.value).value;
              && password.Text? && crypto.compare(password.s, u.passwordHash)
              && r.value == AuthReply(SignToken(crypto, u, now), PublicView(u))
  {
    if !Present(username) || !Truthy(password) then Err(MissingFields)
    else
      match FindByUsername(users, username.value)
      case None => Err(InvalidCredentials)
      case Some(u) =>
        if !password.Text? then Err(ServerError)
        else if !crypto.compare(password.s, u.passwordHash) then Err(InvalidCredentials)
        else Ok(AuthReply(SignToken(crypto, u, now), PublicView(u)))
  }

  /**
    An unknown username and a wrong password are indistinguishable: for a
    password string, login fails with `InvalidCredentials` exactly when no user
    of that name accepts the password.
  */
  lemma LoginFailureIsUniform(users: seq<User>, name: string, password: string, crypto: Crypto, now: int)
    requires Unique(users) && name != "" && password != ""
    ensures Login(users, Some(name), Text(password), crypto, now) == Err(InvalidCredentials) <==>
              forall u :: u in users && u.username == name ==> !crypto.compare(password, u.passwordHash)
  {
    match FindByUsername(users, name)
    case None =>
    case Some(found) =>
      forall u | u in users && u.username == name
        ensures u == found
      {
        FoundUserIsTheOne(users, name, u);
      }
  }

  /**
    Logging in right after registering, with the same username and password,
    succeeds and shows the same public fields as the registration. The token
    is the one signed for that user at the login's instant, so it equals the
    registration's token only when both are signed at the same instant.
  */
  lemma LoginAfterRegister(users: seq<User>, id: nat, username: string, email: string, password: string, crypto: Crypto, later: int)
    requires CompareAcceptsOwnHash(crypto)
    requires Unique(users) && forall i :: 0 <= i < |users| ==> users[i].id < id
    requires username != "" && email != "" && |password| >= 6
    requires !Taken(users, username, email)
    ensures var u := User(id, username, email, crypto.hash(password));
            Login(users + [u], Some(username), Text(password), crypto, later) == Ok(AuthReply(SignToken(crypto, u, later), PublicView(u)))
  {
    var u := User(id, username, email, crypto.hash(password));
    var table := users + [u];
    assert Unique(table) by {
      forall i | 0 <= i < |users| ensures users[i] in users { }
    }
    assert u in table && table[|users|] == u;
    FoundUserIsTheOne(table, username, u);
  }

  /**
    `GET /auth/verify`: after the middleware accepts the token, the user its
    claims name is looked up again; a user that no longer exists is a 401.
  */
  function VerifyRequest(users: seq<User>, header: Option<string>, verify: string -> Option<Identity>)
    : (r: Result<Identity, AuthError>)
    ensures Bearer.Authenticate(header, verify).Reject? ==>
              r == Err(Unauthorized(Bearer.Authenticate(header, verify).reason))
    ensures Bearer.Authenticate(header, verify).Next? ==>
              var id := Bearer.Authenticate(header, verify).user.id;
              && (r.Ok? || r == Err(UserNotFound))
              && (r == Err(UserNotFound) <==> forall u :: u in users ==> u.id != id)
              && (r.Ok? ==> exists u :: u in users && u.id == id && r.value == PublicView(u))
  {
    match Bearer.Authenticate(header, verify)
    case Reject(reason) => Err(Unauthorized(reason))
    case Next(claims) =>
      match FindById(users, claims.id)
      case None => Err(UserNotFound)
      case Some(u) => Ok(PublicView(u))
  }
}
