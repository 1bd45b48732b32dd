/** The comment handlers of controllers/commentController.js. Adding, editing
    and deleting run behind the authentication gate and receive the
    requester's id; listing a video's comments is public. */
module CommentController {
  import opened Common
  import opened Model
  import Ownership
  import VideoController

  /** `addComment`: the comment's author is the requester. The video id is
      taken as given; it is not checked against the stored videos. The comment
      is saved under a fresh identifier, which the counter then moves past. */
  function AddComment(s: Store, requester: UserId, video: VideoId, message: string): (r: Reply)
    ensures r.status == Created
    ensures r.store.(comments := s.comments, nextId := s.nextId) == s
    ensures r.store.nextId == FreshId(s) + 1
    ensures Adds(s.comments, r.store.comments, FreshId(s), Comment(requester, video, message))
  {
    var id := FreshId(s);
    Reply(Created, s.(comments := s.comments[id := Comment(requester, video, message)], nextId := id + 1))
  }

  /** `getCommentById`: despite its name it answers with the comments whose
      `video` is `videoId`, and only those. */
  function GetCommentsByVideo(s: Store, videoId: VideoId): (r: map<CommentId, Comment>)
    ensures forall k :: k in r <==> k in s.comments && s.comments[k].video == videoId
    ensures forall k :: k in r ==> r[k] == s.comments[k]
  {
    map k | k in s.comments && s.comments[k].video == videoId :: s.comments[k]
  }

  /** `editComment`: 404 for an unknown id, then 403 for anyone but the
      author; for the author only `message` changes. */
  function EditComment(s: Store, requester: UserId, id: CommentId, message: string): (r: Reply)
    ensures r.status == NotFound <==> id !in s.comments
    ensures r.status == Forbidden <==> id in s.comments && s.comments[id].user != requester
    ensures r.status == Ok <==> id in s.comments && s.comments[id].user == requester
    ensures r.status != Ok ==> r.store == s
    ensures r.store.(comments := s.comments) == s
    ensures r.status == Ok ==> Replaces(s.comments, r.store.comments, id, s.comments[id].(message := message))
    ensures r.status == Ok ==> && r.store.comments[id].message == message
                               && r.store.comments[id].user == s.comments[id].user
                               && r.store.comments[id].video == s.comments[id].video
  {
    var st := Ownership.Check(s.comments, id, (c: Comment) => c.user, requester);
    if st != Ok then Reply(st, s)
    else Reply(Ok, s.(comments := s.comments[id := s.comments[id].(message := message)]))
  }

  /** `deleteComment`: 404 for an unknown id, then 403 for anyone but the
      author; for the author exactly that comment is removed. */
  function DeleteComment(s: Store, requester: UserId, id: CommentId): (r: Reply)
    ensures r.status == NotFound <==> id !in s.comments
    ensures r.status == Forbidden <==> id in s.comments && s.comments[id].user != requester
    ensures r.status == Ok <==> id in s.comments && s.comments[id].user == requester
    ensures r.status != Ok ==> r.store == s
    ensures r.store.(comments := s.comments) == s
    ensures r.status == Ok ==> Removes(s.comments, r.store.comments, id)
  {
    var st := Ownership.Check(s.comments, id, (c: Comment) => c.user, requester);
    if st != Ok then Reply(st, s)
    else Reply(Ok, s.(comments := s.comments - {id}))
  }

  /** Adding a comment to a video grows that video's listing by exactly the
      new comment and leaves every other video's listing as it was. */
  lemma AddCommentListing(s: Store, requester: UserId, video: VideoId, message: string, other: VideoId)
    ensures var s2 := AddComment(s, requester, video, message).store;
      GetCommentsByVideo(s2, video) == GetCommentsByVideo(s, video)[FreshId(s) := Comment(requester, video, message)]
    ensures var s2 := AddComment(s, requester, video, message).store;
      other != video ==> GetCommentsByVideo(s2, other) == GetCommentsByVideo(s, other)
  {
  }

  /** A comment deleted by its author disappears from its video's listing,
      and the listing loses nothing else. */
  lemma DeleteCommentListing(s: Store, requester: UserId, id: CommentId)
    requires id in s.comments && s.comments[id].user == requester
    ensures var video := s.comments[id].video;
      GetCommentsByVideo(DeleteComment(s, requester, id).store, video) == GetCommentsByVideo(s, video) - {id}
  {
  }

  /** A comment deleted by its author stays deleted when another comment is
      added afterwards: the new comment gets a new identifier, and a repeated
      delete of the old one is answered 404 and leaves the new comment alone. */
  lemma DeletedCommentStaysDeleted(s: Store, requester: UserId, id: CommentId,
                                   author: UserId, video: VideoId, message: string)
    requires IdsIssued(s)
    requires id in s.comments && s.comments[id].user == requester
    ensures var s2 := AddComment(DeleteComment(s, requester, id).store, author, video, message).store;
      && FreshId(DeleteComment(s, requester, id).store) != id
      && DeleteComment(s2, requester, id) == Reply(NotFound, s2)
  {
    assert InUse(s, id);
  }

  /** Deleting a video does not delete its comments: they are still listed
      under the deleted video's id. */
  lemma DeleteVideoKeepsComments(s: Store, requester: UserId, id: VideoId)
    ensures GetCommentsByVideo(VideoController.DeleteVideo(s, requester, id).store, id) == GetCommentsByVideo(s, id)
  {
  }

  /** A comment can only be written or removed by its author: whoever else
      asks, the store is left exactly as it was. */
  lemma OnlyAuthorMutatesComment(s: Store, requester: UserId, id: CommentId, message: string)
    requires id in s.comments && s.comments[id].user != requester
    ensures EditComment(s, requester, id, message) == Reply(Forbidden, s)
    ensures DeleteComment(s, requester, id) == Reply(Forbidden, s)
  {
  }
}
