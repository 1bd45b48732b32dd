/** The protected routes of routes/video.Route.js, routes/comments.Route.js and
    routes/users.Route.js: each mutating video and comment route, and `/me`,
    runs its handler behind the authentication gate. */
module Routes {
  import opened Common
  import opened Model
  import opened AuthMiddleware
  import VideoController
  import CommentController
  import AuthController
  import ChannelController

  /** A request to one of the protected mutating routes. */
  datatype Request =
    | UploadVideo(input: VideoController.VideoInput)          // POST /api/video
    | RemoveVideo(video: VideoId)                              // DELETE /api/video/:id
    | UpdateVideo(video: VideoId, update: VideoController.Update)  // PUT /api/video/:id, PUT /api/:id
    | LikeVideo(video: VideoId)                                // POST /api/video/:id/like
    | DislikeVideo(video: VideoId)                             // POST /api/video/:id/dislike
    | PostComment(video: VideoId, message: string)             // POST /comment
    | UpdateComment(comment: CommentId, message: string)       // PUT /comment/:commentId
    | RemoveComment(comment: CommentId)                        // DELETE /comment/:commentId

  /** The handler each route runs once the gate has admitted `requester`. */
  function Dispatch(s: Store, requester: UserId, req: Request): Reply {
    match req
    case UploadVideo(input) => VideoController.CreateVideo(s, requester, input)
    case RemoveVideo(id) => VideoController.DeleteVideo(s, requester, id)
    case UpdateVideo(id, update) => VideoController.EditVideo(s, requester, id, update)
    case LikeVideo(id) => VideoController.LikeVideo(s, requester, id)
    case DislikeVideo(id) => VideoController.DislikeVideo(s, requester, id)
    case PostComment(video, message) => CommentController.AddComment(s, requester, video, message)
    case UpdateComment(id, message) => CommentController.EditComment(s, requester, id, message)
    case RemoveComment(id) => CommentController.DeleteComment(s, requester, id)
  }

  /** A protected request end to end: a request the gate turns away is
      answered 401 and leaves the store as it was; an admitted one runs its
      handler as the user the token names. */
  function Serve(s: Store, cookie: Option<Token>, verify: Token -> Option<UserId>, req: Request): (r: Reply)
    ensures !HasToken(cookie) ==> r == Reply(Unauthorized, s)
    ensures HasToken(cookie) && verify(cookie.value).None? ==> r == Reply(Unauthorized, s)
    ensures HasToken(cookie) && verify(cookie.value).Some? && verify(cookie.value).value !in s.users ==>
      r == Reply(Unauthorized, s)
    ensures HasToken(cookie) && verify(cookie.value).Some? && verify(cookie.value).value in s.users ==>
      r == Dispatch(s, verify(cookie.value).value, req)
  {
    match Authenticate(s.users, cookie, verify, (me: Identity) => Dispatch(s, me.id, req))
    case Denied(status, _) => Reply(status, s)
    case Admitted(reply) => reply
  }

  /** `GET /me`: the signed-in user's identity, or the gate's 401. */
  function Me(s: Store, cookie: Option<Token>, verify: Token -> Option<UserId>): (r: Gated<Identity>)
    ensures r.Denied? ==> r.status == Unauthorized
    ensures r.Admitted? <==> HasToken(cookie) && verify(cookie.value).Some? && verify(cookie.value).value in s.users
    ensures r.Admitted? ==> r.result.id == verify(cookie.value).value
    ensures r.Admitted? ==> r.result == PublicView(r.result.id, s.users[r.result.id])
  {
    Authenticate(s.users, cookie, verify, (me: Identity) => me)
  }

  /** Whatever protected route is asked for, a request that fails
      authentication changes nothing, and in particular creates, edits or
      deletes no video or comment. */
  lemma RejectedRequestsChangeNothing(s: Store, cookie: Option<Token>, verify: Token -> Option<UserId>, req: Request)
    requires Authenticate(s.users, cookie, verify, (me: Identity) => me).Denied?
    ensures Serve(s, cookie, verify, req) == Reply(Unauthorized, s)
  {
  }

  /** Sign up "alice", then the same user name again; sign in as alice, and
      ask `/me` with the cookie that sign-in set. Assumed of the libraries: the
      digest of "pw1" compares equal to "pw1", and the token issued for the
      first account is non-empty and verifies back to it. */
  lemma SignUpSignInScenario(hash: string -> string, compare: (string, string) -> bool,
                             sign: UserId -> Token, verify: Token -> Option<UserId>)
    requires compare("pw1", hash("pw1"))
    requires sign(0) != "" && verify(sign(0)) == Some(0)
    ensures
      var up := AuthController.SignUp(EmptyStore, AuthController.SignUpInput("alice", "a@x.com", "pw1", None, None, None), hash);
      var again := AuthController.SignUp(up.store, AuthController.SignUpInput("alice", "b@x.com", "pw2", None, None, None), hash);
      var signIn := AuthController.SignIn(up.store, "alice", "pw1", compare, sign);
      var me := Me(up.store, signIn.cookie, verify);
      && up.status == Created
      && again == Reply(BadRequest, up.store)
      && signIn.status == Ok
      && signIn.cookie == Some(sign(0))
      && me.Admitted?
      && me.result == AuthMiddleware.Identity(0, "alice", "a@x.com", None, "Untitled Channel", "No description yet")
      && Me(up.store, None, verify) == Denied(Unauthorized, NoToken)
  {
  }

  /** Alice comments on a video; Bob, signed in with his own token, tries to
      edit and to delete that comment and is refused with 403 both times,
      leaving the store as it was. */
  lemma OtherUserCannotEditCommentScenario(s: Store, alice: UserId, bob: UserId, aliceToken: Token, bobToken: Token,
                                           verify: Token -> Option<UserId>, video: VideoId)
    requires alice in s.users && bob in s.users && alice != bob
    requires aliceToken != "" && verify(aliceToken) == Some(alice)
    requires bobToken != "" && verify(bobToken) == Some(bob)
    ensures
      var posted := Serve(s, Some(aliceToken), verify, PostComment(video, "first!"));
      var id := FreshId(s);
      && posted.status == Created
      && Serve(posted.store, Some(bobToken), verify, UpdateComment(id, "edited")) == Reply(Forbidden, posted.store)
      && Serve(posted.store, Some(bobToken), verify, RemoveComment(id)) == Reply(Forbidden, posted.store)
      && Serve(posted.store, Some(aliceToken), verify, UpdateComment(id, "edited")).status == Ok
  {
  }

  /** Admitted protected requests applied one after another, each with its
      own requester, against the store the previous one left. */
  function RunAll(s: Store, reqs: seq<(UserId, Request)>): Store
    decreases |reqs|
  {
    if reqs == [] then s
    else RunAll(Dispatch(s, reqs[0].0, reqs[0].1).store, reqs[1..])
  }

  /** Every protected handler keeps every stored identifier below the
      counter; the empty store starts that way. */
  lemma HandlersKeepIdsIssued(s: Store, requester: UserId, req: Request)
    requires IdsIssued(s)
    ensures IdsIssued(EmptyStore)
    ensures IdsIssued(Dispatch(s, requester, req).store)
  {
    var r := Dispatch(s, requester, req).store;
    match req {
      case UploadVideo(_) =>
        forall k: nat | InUse(r, k) ensures k < r.nextId { assert InUse(s, k) || k == FreshId(s); }
      case PostComment(_, _) =>
        forall k: nat | InUse(r, k) ensures k < r.nextId { assert InUse(s, k) || k == FreshId(s); }
      case _ =>
        forall k: nat | InUse(r, k) ensures k < r.nextId { assert InUse(s, k); }
    }
  }

  /** Sign-up and channel creation, which run without the gate, keep every
      stored identifier below the counter too. */
  lemma OpenHandlersKeepIdsIssued(s: Store, signUp: AuthController.SignUpInput, hash: string -> string,
                                  channel: ChannelController.ChannelInput)
    requires IdsIssued(s)
    ensures IdsIssued(AuthController.SignUp(s, signUp, hash).store)
    ensures IdsIssued(ChannelController.CreateChannel(s, channel).store)
  {
  }

  /** No request moves the counter back, and none puts a video or comment
      under an identifier below the counter that names none. */
  lemma DispatchKeepsRetired(s: Store, requester: UserId, req: Request, id: nat)
    requires id < s.nextId
    ensures s.nextId <= Dispatch(s, requester, req).store.nextId
    ensures id !in s.videos ==> id !in Dispatch(s, requester, req).store.videos
    ensures id !in s.comments ==> id !in Dispatch(s, requester, req).store.comments
  {
  }

  /** An identifier that was issued and no longer names a video (or a
      comment) never names one again, whatever requests follow. */
  lemma {:induction false} RetiredIdsStayRetired(s: Store, reqs: seq<(UserId, Request)>, id: nat)
    requires id < s.nextId
    ensures id !in s.videos ==> id !in RunAll(s, reqs).videos
    ensures id !in s.comments ==> id !in RunAll(s, reqs).comments
    decreases |reqs|
  {
    if reqs != [] {
      DispatchKeepsRetired(s, reqs[0].0, reqs[0].1, id);
      RetiredIdsStayRetired(Dispatch(s, reqs[0].0, reqs[0].1).store, reqs[1..], id);
    }
  }

  /** A deleted video is answered 404, and a deleted comment cannot be edited
      or deleted again (404, nothing changes), whatever protected requests
      come in between. */
  lemma DeletedStaysDeleted(s: Store, requester: UserId, video: VideoId, comment: CommentId,
                            reqs: seq<(UserId, Request)>, later: UserId, message: string)
    requires IdsIssued(s)
    ensures video in s.videos ==>
      var after := RunAll(VideoController.DeleteVideo(s, requester, video).store, reqs);
      VideoController.FetchVideoById(after, video).status == NotFound
    ensures comment in s.comments && s.comments[comment].user == requester ==>
      var after := RunAll(CommentController.DeleteComment(s, requester, comment).store, reqs);
      && CommentController.DeleteComment(after, later, comment) == Reply(NotFound, after)
      && CommentController.EditComment(after, later, comment, message) == Reply(NotFound, after)
  {
    if video in s.videos {
      assert InUse(s, video);
      RetiredIdsStayRetired(VideoController.DeleteVideo(s, requester, video).store, reqs, video);
    }
    if comment in s.comments && s.comments[comment].user == requester {
      assert InUse(s, comment);
      RetiredIdsStayRetired(CommentController.DeleteComment(s, requester, comment).store, reqs, comment);
    }
  }
}
