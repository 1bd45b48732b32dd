/** The authentication gate of Middleware/auth.js: read the `token` cookie,
    verify it, load the user it names, and only then run the protected
    handler with that user attached to the request. Token verification is a
    library call; it is a parameter here, answering `None` where the library
    throws. */
module AuthMiddleware {
  import opened Common
  import opened Model

  /** The user attached to the request: the stored account without its
      password digest. */
  datatype Identity = Identity(
    id: UserId,
    userName: string,
    email: string,
    profilePic: Option<string>,
    channelName: string,
    about: string)

  /** The account `u` stored under `id`, with the password left out. */
  function PublicView(id: UserId, u: User): (i: Identity)
    ensures i.id == id
    ensures User(i.userName, i.email, u.password, i.profilePic, i.channelName, i.about) == u
  {
    Identity(id, u.userName, u.email, u.profilePic, u.channelName, u.about)
  }

  /** Why a request was turned away; each reason has its own message, all
      share status 401. */
  datatype DenyReason = NoToken | InvalidToken | UserNotFound

  /** The gate's outcome: turned away, or the protected handler's result. */
  datatype Gated<R> = Denied(status: Status, reason: DenyReason) | Admitted(result: R)

  /** A present, non-empty cookie value (an empty string is falsy). */
  predicate HasToken(cookie: Option<Token>) {
    cookie.Some? && cookie.value != ""
  }

  /** The gate. `verify` stands for the token library's `verify` and yields the
      payload's `userId`. Every failure is 401 and the handler's result
      appears only when all three checks pass. */
  function Authenticate<R>(users: map<UserId, User>, cookie: Option<Token>,
                           verify: Token -> Option<UserId>, handler: Identity -> R): (r: Gated<R>)
    ensures r.Denied? ==> r.status == Unauthorized
    ensures r.Denied? && r.reason == NoToken <==> !HasToken(cookie)
    ensures r.Denied? && r.reason == InvalidToken <==> HasToken(cookie) && verify(cookie.value).None?
    ensures r.Denied? && r.reason == UserNotFound <==>
      HasToken(cookie) && verify(cookie.value).Some? && verify(cookie.value).value !in users
    ensures r.Admitted? <==>
      HasToken(cookie) && verify(cookie.value).Some? && verify(cookie.value).value in users
    ensures r.Admitted? ==>
      var id := verify(cookie.value).value;
      r.result == handler(PublicView(id, users[id]))
  {
    if !HasToken(cookie) then Denied(Unauthorized, NoToken)
    else match verify(cookie.value)
      case None => Denied(Unauthorized, InvalidToken)
      case Some(id) =>
        if id !in users then Denied(Unauthorized, UserNotFound)
        else Admitted(handler(PublicView(id, users[id])))
  }

  /** A turned-away request never reaches the handler: the outcome is the same
      whatever handler the route would have run. */
  lemma DeniedIgnoresHandler<R>(users: map<UserId, User>, cookie: Option<Token>,
                                verify: Token -> Option<UserId>, h1: Identity -> R, h2: Identity -> R)
    requires Authenticate(users, cookie, verify, h1).Denied?
    ensures Authenticate(users, cookie, verify, h2) == Authenticate(users, cookie, verify, h1)
  {
  }

  /** The identity the handler sees does not depend on the stored password
      digests: two stores that differ only in those give the same outcome. */
  lemma GateIgnoresPasswords<R>(users: map<UserId, User>, users2: map<UserId, User>, cookie: Option<Token>,
                                verify: Token -> Option<UserId>, handler: Identity -> R)
    requires users.Keys == users2.Keys
    requires forall k :: k in users ==> users[k].(password := "") == users2[k].(password := "")
    ensures Authenticate(users, cookie, verify, handler) == Authenticate(users2, cookie, verify, handler)
  {
  }
}
