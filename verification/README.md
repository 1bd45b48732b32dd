# Video-sharing backend: handler decision rules in Dafny

This project models the decision logic of a small REST backend for a
video-sharing site (users, channels, videos, likes and dislikes, comments).
Every request handler is a pure function from the document store (one map from
identifier to document per collection) and the request's inputs to a status and
the store afterwards. Four parts carry the logic:

- **Like/dislike toggle** (`Reactions`, `VideoController.LikeVideo`,
  `VideoController.DislikeVideo`). A video records reactions as two user lists,
  `likes` and `dislike`. Liking when already liked removes the user from
  `likes`. Otherwise it appends the user to `likes` and removes them from
  `dislike`. Disliking is the mirror image. The model proves that the two lists
  stay duplicate-free and disjoint and that only the acting user's entries
  change. On a well-formed video the toggles form the three-state machine
  Neutral/Liked/Disliked.
- **Existence, then ownership, then mutation** (`Ownership.Check`,
  `EditVideo`, `EditComment`, `DeleteComment`). An unknown id is answered 404
  and a non-owner 403. Either way the store is unchanged. `DeleteVideo` has no
  ownership check.
- **Authentication gate** (`AuthMiddleware.Authenticate`, `Routes.Serve`).
  The gate has three checks: the cookie holds a token, the token verifies, and
  the named user exists. Each failure is 401 with its own message, and the
  protected handler runs only when all three pass. The handler then sees the
  stored user without the password digest.
- **Uniqueness at creation** (`AuthController.SignUp`, `AuthController.SignIn`,
  `ChannelController.CreateChannel`). Sign-up refuses a taken user name or
  email. Sign-in matches the given name against user name or email. A user owns
  at most one channel.

Password hashing, password comparison, token signing and token verification
are library calls. They are function-valued parameters, and nothing is assumed
about them. The lemmas that need a property of one state it as a precondition
on particular values.

The store's behaviour is fixed in two places. `Common.FindOne` is the store's
`findOne`: it returns the matching document with the smallest key.
`Model.FreshId` stands for a newly drawn ObjectId. The store keeps a counter,
`nextId`, that only grows. A new document gets an identifier at or above the
counter and above every identifier in use, and the counter moves past it.
Deleting a document never lowers the counter, so a deleted document's
identifier is never handed out again (`Routes.DeletedStaysDeleted`).
Identifiers therefore grow in creation order, and natural order follows
insertion.

Some behaviours of the code are worth stating:

- The gate's three failures carry three different messages
  (Middleware/auth.js:11, 20, 29). `DenyReason` records which check failed,
  and the status is 401 in every case.
- Deleting a video checks existence only. Any signed-in user may delete any
  video (controllers/videoController.js:116-128).
- The owner of a video is not immutable. `editVideo` passes the request body
  unfiltered to `findByIdAndUpdate`, so the uploader may overwrite `user`,
  `likes` and `dislike`, or change them with update operators. The model
  takes an update to be any function from the stored video to the new one.
  `VideoController.EditVideoCanBreakReactions` exhibits an update that breaks
  the reaction invariant.
- `createChannel` is not behind the gate. It takes the owner from the request
  body.

`AuthController.SignInCanResolveToAnotherAccount` shows one more behaviour of
the code. Sign-up compares user names only with user names and emails only
with emails. A new account may therefore take an older account's email as its
user name. That name then matches both accounts at sign-in. Whichever of the
two the lookup returns, the owner of the other is refused with their own
correct password.

## Model

| member | source | states |
|---|---|---|
| `Reactions.Without` | controllers/videoController.js:204 | Filtering a user out of a reaction list removes every occurrence of that user and keeps every other user with the same multiplicity. |
| `Reactions.Like` | controllers/videoController.js:200-209 | After a like, the user is in `likes` iff they were not before. They stay in `dislike` only if the like was an un-like. They occur at most once in `likes`. Every other user's counts in both lists and every other field are unchanged. |
| `Reactions.Dislike` | controllers/videoController.js:240-249 | The mirror image of the like toggle, with the roles of `dislike` and `likes` swapped. |
| `Reactions.LikePreservesWellFormed` | controllers/videoController.js:200-209 | If both lists are duplicate-free and disjoint before a like, they are afterwards too. |
| `Reactions.DislikePreservesWellFormed` | controllers/videoController.js:240-249 | If both lists are duplicate-free and disjoint before a dislike, they are afterwards too. |
| `Reactions.LikeTransition` | controllers/videoController.js:200-209 | On a well-formed video, liking maps Liked to Neutral, Neutral to Liked and Disliked to Liked. Every other user's reaction is unchanged. |
| `Reactions.DislikeTransition` | controllers/videoController.js:240-249 | On a well-formed video, disliking maps Disliked to Neutral, Neutral to Disliked and Liked to Disliked. Every other user's reaction is unchanged. |
| `Reactions.LikeTwiceRestores` | controllers/videoController.js:200-209 | For a user with no reaction, liking twice gives back exactly the original video, list order included. |
| `Reactions.DislikeTwiceRestores` | controllers/videoController.js:240-249 | For a user with no reaction, disliking twice gives back exactly the original video. |
| `Ownership.Check` | controllers/commentController.js:61-73 | The pre-mutation decision is 404 iff the id is unknown, 403 iff it exists with another owner, and go-ahead iff the requester is the owner. |
| `Model.FreshId` | controllers/videoController.js:11-20 | A newly saved document's identifier is never below the counter, so no identifier issued before is reissued, and it is above every identifier in use. When every stored identifier came from the counter, it is the counter itself. |
| `VideoController.CreateVideo` | controllers/videoController.js:7-22 | Upload answers 201 and adds one video under a fresh id, and the counter moves past that id. Its uploader is the requester. The body fields are copied, `videoType` defaults to "All", and both reaction lists start empty. Other collections are untouched. |
| `VideoController.FetchVideoById` | controllers/videoController.js:61-80 | The answer is 404 with no video iff the id is unknown; otherwise it is 200 with the stored video. |
| `VideoController.FetchVideosByUser` | controllers/videoController.js:92-103 | The result holds exactly the stored videos whose uploader is the given user, unchanged. |
| `VideoController.DeleteVideo` | controllers/videoController.js:116-133 | The answer is 404 with no change iff the id is unknown; otherwise it is 200 and exactly that video is removed. The outcome does not depend on the requester. |
| `VideoController.EditVideo` | controllers/videoController.js:146-173 | The answer is 404 iff the id is unknown, 403 iff a non-uploader asks, and 200 iff the uploader asks. Only on 200 does the store change: the update is applied to that one video. |
| `VideoController.LikeVideo` | controllers/videoController.js:187-216 | The answer is 404 with no change iff the id is unknown. Otherwise it is 200 and only that video changes, by the like toggle for the requester. |
| `VideoController.DislikeVideo` | controllers/videoController.js:227-256 | The answer is 404 with no change iff the id is unknown. Otherwise it is 200 and only that video changes, by the dislike toggle for the requester. |
| `VideoController.LikeVideoPreservesReactions` | controllers/videoController.js:187-211 | If every stored video's reaction lists are duplicate-free and disjoint, they still are after the like handler. |
| `VideoController.DislikeVideoPreservesReactions` | controllers/videoController.js:227-251 | If every stored video's reaction lists are duplicate-free and disjoint, they still are after the dislike handler. |
| `VideoController.OtherHandlersPreserveReactions` | controllers/videoController.js:7-182 | Upload and delete keep the store-wide reaction invariant. So does an edit whose update leaves both reaction lists of the stored video as they were. |
| `VideoController.UploadFetchDelete` | controllers/videoController.js:7-133 | An uploaded video is fetched by its id with 200, is owned by the uploader and is listed among the uploader's videos. After any requester deletes it, fetching it gives 404. |
| `VideoController.DeletedVideoStaysDeleted` | controllers/videoController.js:7-133 | Once a video is deleted, fetching its id gives 404 however many uploads follow. |
| `VideoController.UploadAllKeepsRetired` | controllers/videoController.js:11-20 | An identifier that was issued and names no video is not given to any later upload. |
| `VideoController.EditVideoCanBreakReactions` | controllers/videoController.js:166-168 | A concrete edit by the uploader is accepted with 200 and leaves a video whose `likes` repeats a user that is also in `dislike`. |
| `CommentController.AddComment` | controllers/commentController.js:6-18 | Adding a comment answers 201 and stores it under a fresh id, and the counter moves past that id. The author is the requester; the video and message come from the body. |
| `CommentController.GetCommentsByVideo` | controllers/commentController.js:32-45 | The result holds exactly the stored comments whose `video` equals the requested id. |
| `CommentController.EditComment` | controllers/commentController.js:56-81 | The answer is 404 iff the id is unknown, 403 iff a non-author asks, and 200 iff the author asks. 404 and 403 leave the store unchanged. On 200 only `message` of that comment changes, and `user` and `video` keep their values. |
| `CommentController.DeleteComment` | controllers/commentController.js:92-115 | The answer is 404 iff the id is unknown, 403 iff a non-author asks, and 200 iff the author asks. Only the 200 case changes the store, removing exactly that comment. |
| `CommentController.AddCommentListing` | controllers/commentController.js:10-36 | After a comment is added, that video's listing is the old listing plus the new comment. Every other video's listing is unchanged. |
| `CommentController.DeleteCommentListing` | controllers/commentController.js:32-115 | A comment deleted by its author leaves its video's listing, and nothing else leaves it. |
| `CommentController.DeletedCommentStaysDeleted` | controllers/commentController.js:10-102 | After an author deletes a comment and another comment is added, the new comment has a different id. Deleting the old id again gives 404 and changes nothing. |
| `CommentController.DeleteVideoKeepsComments` | controllers/videoController.js:116-128 | Deleting a video leaves its comments listed under its id. |
| `CommentController.OnlyAuthorMutatesComment` | controllers/commentController.js:56-110 | A non-author's edit or delete of an existing comment is answered 403, and the store is exactly as before. |
| `AuthController.OrDefault` | controllers/authController.js:39-40 | An absent or empty string gives way to the fallback; any other given string is kept. |
| `AuthController.SignUp` | controllers/authController.js:17-51 | The answer is 400 with no change iff some account has the same user name or the same email. Otherwise it is 201 and one account is added under a fresh id. That account holds `hash(password)` in place of the password. Its channel name defaults to "Untitled Channel" and its description to "No description yet". |
| `AuthController.SignUpPreservesUniqueAccounts` | controllers/authController.js:22-44 | Sign-up keeps user names unique and emails unique across the accounts. |
| `AuthController.SignUpAllPreservesUniqueAccounts` | controllers/authController.js:22-44 | Any sequence of sign-ups keeps user names and emails unique. |
| `AuthController.SignIn` | controllers/authController.js:63-94 | With no account matching the name by user name or email, the answer is 400. For the first matching account, the answer is 200 iff the password compares equal to its digest. On 200 the signed token of that account is both returned and set as the `token` cookie; on 400 no token is issued. |
| `AuthController.SignInChecksMatchingAccount` | controllers/authController.js:68-86 | When no name matches two accounts, signing in with an account's name succeeds iff the password compares equal to that account's digest. The account signed in is that one. |
| `AuthController.SignInCanResolveToAnotherAccount` | controllers/authController.js:22-79 | Two concrete sign-ups are both accepted, where one account's email is the other's user name. That name then matches both accounts, and each password compares equal to its own account's digest. Whichever matching account the lookup returns, one of the two passwords fails against it. In the modelled order, the newer account's password is refused with 400. |
| `ChannelController.CreateChannel` | controllers/channelController.js:4-21 | The answer is 400 with no change iff the owner already has a channel. Otherwise it is 201 and one channel is added with the given name and owner. The description and banner are the given ones or the schema defaults, with 0 subscribers and no videos. |
| `ChannelController.GetChannelByUserId` | controllers/channelController.js:28-35 | The answer is 404 iff the user owns no channel; otherwise it is 200 with a stored channel owned by that user. |
| `ChannelController.GetChannelById` | controllers/channelController.js:42-49 | The answer is 404 iff the id is unknown; otherwise it is 200 with the stored channel. |
| `ChannelController.CreateChannelPreservesOneChannelPerOwner` | controllers/channelController.js:8-20 | Channel creation keeps each owner at no more than one channel. |
| `ChannelController.GetChannelByUserIdFindsTheChannel` | controllers/channelController.js:31-35 | While each owner has at most one channel, the lookup by owner returns that owner's channel. |
| `ChannelController.CreateThenGetChannel` | controllers/channelController.js:4-49 | A newly created channel is found by its id and by its owner. A second creation for the same owner is refused with no change. |
| `AuthMiddleware.PublicView` | Middleware/auth.js:17 | The attached identity carries every field of the stored account except the password digest. |
| `AuthMiddleware.Authenticate` | Middleware/auth.js:6-31 | A missing or empty token, a token that does not verify, and a token naming an unknown user each give 401 with their own reason. The handler's result is returned iff all three checks pass, and the handler is then given the stored user without its password. |
| `AuthMiddleware.DeniedIgnoresHandler` | Middleware/auth.js:8-30 | A request the gate turns away has the same outcome whatever handler the route would have run. |
| `AuthMiddleware.GateIgnoresPasswords` | Middleware/auth.js:17-25 | Stores that differ only in password digests give the same gate outcome. |
| `Routes.Serve` | routes/video.Route.js:17-34 | On every protected video or comment route, failed authentication gives 401 with the store unchanged. Otherwise the route's handler runs as the user the token names. |
| `Routes.Me` | routes/users.Route.js:22-27 | `/me` answers 401 or the signed-in user's identity without the password. |
| `Routes.RejectedRequestsChangeNothing` | routes/comments.Route.js:8-11 | Any protected request that the gate turns away is answered 401 and changes nothing. |
| `Routes.SignUpSignInScenario` | controllers/authController.js:17-94 | Signing up "alice" gives 201, and the same user name again gives 400 with no change. Signing in sets the cookie, and `/me` with it returns alice's identity. `/me` without a cookie gives 401. |
| `Routes.HandlersKeepIdsIssued` | controllers/videoController.js:11-20 | The empty store has every identifier below the counter. Every protected handler keeps it that way. |
| `Routes.OpenHandlersKeepIdsIssued` | controllers/authController.js:33-44 | Sign-up and channel creation keep every stored identifier below the counter. |
| `Routes.DispatchKeepsRetired` | controllers/commentController.js:10-16 | No protected request lowers the counter. No request stores a video or comment under an issued identifier that names none. |
| `Routes.RetiredIdsStayRetired` | controllers/videoController.js:11-20 | An issued identifier that names no video, or no comment, never names one again, whatever sequence of protected requests follows. |
| `Routes.DeletedStaysDeleted` | controllers/commentController.js:92-102 | After any sequence of protected requests, a deleted video is still answered 404. A deleted comment's edit and delete are still answered 404, with no change. |
| `Routes.OtherUserCannotEditCommentScenario` | controllers/commentController.js:56-115 | After alice comments, bob's edit and delete get 403 with no change, and alice's own edit gets 200. |

## Left out

- `fetchAllVideos` (controllers/videoController.js:38-56) returns the whole collection and decides nothing.
- `logout`, the cookie flags and clearing the cookie (controllers/authController.js:8-12, 106-109) are transport settings.
- The 500 branches of every handler are not modelled. These are store or connectivity failures, and the thrown validation errors of the schemas. Inputs the schemas require are modelled as present.
- `populate` projections, ObjectId casting and `toString` comparison are not modelled. Identifiers are naturals compared by equality.
- JSON response bodies and message strings are not modelled. Only the status, the stored documents and, for sign-in, the token and cookie are.
- `AuthController.SignIn`: the response body's `user` is the whole account, password digest included (controllers/authController.js:68-70, 89-94). `SignInReply.user` holds only the account's identifier, so the model does not show that the digest is sent.
- Schema validation is not modelled. Mongoose's `required` rejects an empty string, so in the code an empty `title`, `message` or `channelName` gives 500. The model accepts it with 201 or 200.
- Timestamps (`createdAt`, `updatedAt`) are not modelled.
- models/User.Model.js is not part of this model. Any unique index or default it declares is not reflected; the `unique` index on a channel's owner is represented only by the handler's own check.
- Concurrency is not modelled: requests are applied one at a time. The read-then-write races the code permits are outside the model.
- Server, database connection and route-registration glue (server.js, db/conn.js) are not modelled.
- `AuthController.SignUp`: `hash` is a deterministic function, so the fresh salt bcrypt draws on each call is not modelled.
- `AuthController.SignIn`: when several accounts match the name, the store's natural order is modelled as smallest identifier first. The order a real query plan returns may differ; `AuthController.SignInCanResolveToAnotherAccount` states its conclusion for either choice.
- `VideoController.EditVideo`: an update is any function of the stored video. Which update documents Mongoose accepts or casts, and what it does with unknown keys, is not modelled.
- `AuthMiddleware.Authenticate`: a failure of the user lookup itself, which the code also answers with 401, is not modelled; `verify` answering `None` covers every token the library rejects.
- No cryptographic property of signing or hashing is modelled, such as tamper detection, expiry or salt freshness.
