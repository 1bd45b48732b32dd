/** Account creation and sign-in (controllers/authController.js). Password
    hashing, password comparison and token signing are library calls; they are
    parameters here and nothing is assumed about them. */
module AuthController {
  import opened Common
  import opened Model

  /** The fields `signUp` reads from the request body. */
  datatype SignUpInput = SignUpInput(
    username: string,
    email: string,
    password: string,
    profilePic: Option<string>,
    channelName: Option<string>,
    about: Option<string>)

  const DefaultChannelName: string := "Untitled Channel"
  const DefaultAbout: string := "No description yet"

  /** JavaScript's `given || fallback` on an optional string: an absent or
      empty string is falsy and gives way to the fallback. */
  function OrDefault(given: Option<string>, fallback: string): (r: string)
    ensures given.Some? && given.value != "" ==> r == given.value
    ensures given.None? || given.value == "" ==> r == fallback
  {
    if given.Some? && given.value != "" then given.value else fallback
  }

  /** An existing account that blocks sign-up: same user name, or same email. */
  predicate Clashes(u: User, input: SignUpInput) {
    u.userName == input.username || u.email == input.email
  }

  /** No two accounts share a user name, and no two share an email. */
  ghost predicate UniqueAccounts(users: map<UserId, User>) {
    forall a, b :: a in users && b in users && a != b ==>
      users[a].userName != users[b].userName && users[a].email != users[b].email
  }

  /** `signUp`: 400 and no change when an account already has the user name or
      the email; otherwise a new account holding `hash(password)` and the
      defaulted channel name and description, answered 201. */
  function SignUp(s: Store, input: SignUpInput, hash: string -> string): (r: Reply)
    ensures r.status in {Created, BadRequest}
    ensures r.status == BadRequest <==> exists k :: k in s.users && Clashes(s.users[k], input)
    ensures r.status == BadRequest ==> r.store == s
    ensures r.store.(users := s.users, nextId := s.nextId) == s
    ensures r.status == Created ==> r.store.nextId == FreshId(s) + 1
    ensures r.status == Created ==>
      var id := FreshId(s);
      && id in r.store.users
      && Adds(s.users, r.store.users, id, r.store.users[id])
      && r.store.users[id].userName == input.username
      && r.store.users[id].email == input.email
      && r.store.users[id].password == hash(input.password)
      && r.store.users[id].profilePic == input.profilePic
      && r.store.users[id].channelName == OrDefault(input.channelName, DefaultChannelName)
      && r.store.users[id].about == OrDefault(input.about, DefaultAbout)
  {
    if FindOne(s.users, (u: User) => Clashes(u, input)).Some? then Reply(BadRequest, s)
    else
      var user := User(input.username, input.email, hash(input.password), input.profilePic,
                       OrDefault(input.channelName, DefaultChannelName),
                       OrDefault(input.about, DefaultAbout));
      var id := FreshId(s);
      Reply(Created, s.(users := s.users[id := user], nextId := id + 1))
  }

  /** A successful sign-up keeps user names and emails unique. */
  lemma SignUpPreservesUniqueAccounts(s: Store, input: SignUpInput, hash: string -> string)
    requires UniqueAccounts(s.users)
    ensures UniqueAccounts(SignUp(s, input, hash).store.users)
  {
  }

  /** Sign-ups applied one after another, each against the store the previous
      one left. */
  function SignUpAll(s: Store, inputs: seq<SignUpInput>, hash: string -> string): Store
    decreases |inputs|
  {
    if inputs == [] then s
    else SignUpAll(SignUp(s, inputs[0], hash).store, inputs[1..], hash)
  }

  /** However many sign-ups are made in sequence, user names and emails stay
      unique. */
  lemma {:induction false} SignUpAllPreservesUniqueAccounts(s: Store, inputs: seq<SignUpInput>, hash: string -> string)
    requires UniqueAccounts(s.users)
    ensures UniqueAccounts(SignUpAll(s, inputs, hash).users)
    decreases |inputs|
  {
    if inputs != [] {
      SignUpPreservesUniqueAccounts(s, inputs[0], hash);
      SignUpAllPreservesUniqueAccounts(SignUp(s, inputs[0], hash).store, inputs[1..], hash);
    }
  }

  /** `signIn` looks the account up by matching the given name against the
      user name or the email. */
  predicate LoginMatches(u: User, username: string) {
    u.userName == username || u.email == username
  }

  /** `k` is the matching account with the smallest id, the one `findOne` returns. */
  ghost predicate FirstLogin(users: map<UserId, User>, k: UserId, username: string) {
    && k in users
    && LoginMatches(users[k], username)
    && forall j :: j in users && LoginMatches(users[j], username) ==> k <= j
  }

  /** What `signIn` answers: the status, the token in the body, the `token`
      cookie it sets, and the account it signed in. The store is not written. */
  datatype SignInReply = SignInReply(status: Status, token: Option<Token>, cookie: Option<Token>, user: Option<UserId>)

  /** `signIn`: 400 when no account matches the name, 400 when the password
      does not compare equal to the first matching account's digest; otherwise
      200 with `sign(id)` both in the body and as the `token` cookie. */
  function SignIn(s: Store, username: string, password: string,
                  compare: (string, string) -> bool, sign: UserId -> Token): (r: SignInReply)
    ensures r.status in {Ok, BadRequest}
    ensures (forall k :: k in s.users ==> !LoginMatches(s.users[k], username)) ==> r.status == BadRequest
    ensures r.status == BadRequest ==> r.token.None? && r.cookie.None? && r.user.None?
    ensures r.status == Ok ==>
      && r.user.Some?
      && r.user.value in s.users
      && LoginMatches(s.users[r.user.value], username)
      && compare(password, s.users[r.user.value].password)
      && r.token == Some(sign(r.user.value))
      && r.cookie == r.token
    ensures r.status == Ok ==>
      forall k :: k in s.users && LoginMatches(s.users[k], username) ==> r.user.value <= k
    ensures forall k :: FirstLogin(s.users, k, username) ==>
      (r.status == Ok <==> compare(password, s.users[k].password))
  {
    match FindOne(s.users, (u: User) => LoginMatches(u, username))
    case None => SignInReply(BadRequest, None, None, None)
    case Some(id) =>
      if !compare(password, s.users[id].password) then SignInReply(BadRequest, None, None, None)
      else
        var token := sign(id);
        SignInReply(Ok, Some(token), Some(token), Some(id))
  }

  /** No name signs in to two accounts: no account's user name or email equals
      another account's user name or email. `signUp` alone does not ensure
      this (see `SignInCanResolveToAnotherAccount`). */
  ghost predicate UnambiguousLogins(users: map<UserId, User>) {
    forall a, b, name :: a in users && b in users && a != b && LoginMatches(users[a], name) ==> !LoginMatches(users[b], name)
  }

  /** When logins are unambiguous, signing in with an account's user name or
      email succeeds exactly when the password compares equal to that
      account's digest, and signs that account in. */
  lemma SignInChecksMatchingAccount(s: Store, k: UserId, username: string, password: string,
                                    compare: (string, string) -> bool, sign: UserId -> Token)
    requires UnambiguousLogins(s.users)
    requires k in s.users && LoginMatches(s.users[k], username)
    ensures SignIn(s, username, password, compare, sign).status == Ok <==> compare(password, s.users[k].password)
    ensures SignIn(s, username, password, compare, sign).status == Ok ==>
      SignIn(s, username, password, compare, sign).user == Some(k)
  {
  }

  /** `signUp` checks a new user name only against user names and a new email
      only against emails, so one account's user name may be another's email.
      Both sign-ups below are accepted, and the name "alice" then matches both
      accounts. Whichever of the two the lookup returns, the owner of the
      other one is refused although their password is correct: the guarantee
      does not depend on the order the store returns matches in. Under the
      modelled order the newer account's owner is the one refused. */
  lemma SignInCanResolveToAnotherAccount()
    ensures
      var hash := (p: string) => p + "!";
      var compare := (p: string, h: string) => h == p + "!";
      var older := SignUp(EmptyStore, SignUpInput("bob", "alice", "pw-bob", None, None, None), hash);
      var newer := SignUp(older.store, SignUpInput("alice", "a@x.com", "pw-alice", None, None, None), hash);
      var users := newer.store.users;
      && older.status == Created
      && newer.status == Created
      && users.Keys == {0, 1}
      && LoginMatches(users[0], "alice") && compare("pw-bob", users[0].password)
      && LoginMatches(users[1], "alice") && compare("pw-alice", users[1].password)
      && (forall k :: k in users && LoginMatches(users[k], "alice") ==>
            !compare("pw-bob", users[k].password) || !compare("pw-alice", users[k].password))
      && SignIn(newer.store, "alice", "pw-alice", compare, (id: UserId) => "t").status == BadRequest
  {
  }
}
