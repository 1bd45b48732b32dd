/** The video handlers of controllers/videoController.js. Each protected handler
    receives the authenticated requester's id (`req.user._id`); the handler
    runs only behind the authentication gate (see module `Routes`). */
module VideoController {
  import opened Common
  import opened Model
  import Reactions
  import Ownership

  /** The fields `createVideo` reads from the request body. */
  datatype VideoInput = VideoInput(
    title: string,
    description: Option<string>,
    videoLink: string,
    videoType: Option<string>,
    thumbnail: string)

  /** The schema default of `videoType`. */
  const DefaultVideoType: string := "All"

  /** An update document as `findByIdAndUpdate` applies it to the stored
      video. The payload is taken from the request body unfiltered: field
      overwrites, update operators such as `$push` or `$unset`, and dotted
      paths are all accepted, so an update is any change to the video. */
  type Update = Video -> Video

  /** Every stored video has duplicate-free, disjoint reaction lists. */
  ghost predicate ReactionsWellFormed(s: Store) {
    forall k :: k in s.videos ==> Reactions.WellFormed(s.videos[k])
  }

  /** `createVideo`: the uploader recorded on the video is the requester, never
      a value from the body; the reaction lists start empty. The video is saved
      under a fresh identifier, which the counter then moves past. */
  function CreateVideo(s: Store, requester: UserId, input: VideoInput): (r: Reply)
    ensures r.status == Created
    ensures r.store.(videos := s.videos, nextId := s.nextId) == s
    ensures r.store.nextId == FreshId(s) + 1
    ensures var id := FreshId(s);
      && id in r.store.videos
      && Adds(s.videos, r.store.videos, id, r.store.videos[id])
      && r.store.videos[id].user == requester
      && r.store.videos[id].title == input.title
      && r.store.videos[id].description == input.description
      && r.store.videos[id].videoLink == input.videoLink
      && r.store.videos[id].thumbnail == input.thumbnail
      && (input.videoType.None? ==> r.store.videos[id].videoType == DefaultVideoType)
      && (input.videoType.Some? ==> r.store.videos[id].videoType == input.videoType.value)
      && r.store.videos[id].likes == [] && r.store.videos[id].dislike == []
  {
    var v := Video(requester, input.title, input.description, input.videoLink,
                   input.thumbnail, input.videoType.GetOr(DefaultVideoType), [], []);
    var id := FreshId(s);
    Reply(Created, s.(videos := s.videos[id := v], nextId := id + 1))
  }

  /** `fetchVideoById`: the stored video, or 404. */
  function FetchVideoById(s: Store, id: VideoId): (r: Lookup<Video>)
    ensures r.status == NotFound <==> id !in s.videos
    ensures r.status == Ok <==> id in s.videos
    ensures r.status == Ok ==> r.value == Some(s.videos[id])
    ensures r.status == NotFound ==> r.value == None
  {
    FindById(s.videos, id)
  }

  /** `fetchVideosByUser`: exactly the videos uploaded by `userId`. */
  function FetchVideosByUser(s: Store, userId: UserId): (r: map<VideoId, Video>)
    ensures forall k :: k in r <==> k in s.videos && s.videos[k].user == userId
    ensures forall k :: k in r ==> r[k] == s.videos[k]
  {
    map k | k in s.videos && s.videos[k].user == userId :: s.videos[k]
  }

  /** `deleteVideo`: any authenticated requester may delete any existing
      video; there is no ownership check. The contract does not mention the
      requester because the outcome does not depend on it. Comments on the
      video are left in place. */
  function DeleteVideo(s: Store, requester: UserId, id: VideoId): (r: Reply)
    ensures r.status == NotFound <==> id !in s.videos
    ensures r.status == Ok <==> id in s.videos
    ensures r.status == NotFound ==> r.store == s
    ensures r.store.(videos := s.videos) == s
    ensures r.status == Ok ==> Removes(s.videos, r.store.videos, id)
  {
    if id !in s.videos then Reply(NotFound, s)
    else Reply(Ok, s.(videos := s.videos - {id}))
  }

  /** `editVideo`: 404 for an unknown id, then 403 for anyone but the
      uploader; only then is the update applied. */
  function EditVideo(s: Store, requester: UserId, id: VideoId, update: Update): (r: Reply)
    ensures r.status == NotFound <==> id !in s.videos
    ensures r.status == Forbidden <==> id in s.videos && s.videos[id].user != requester
    ensures r.status == Ok <==> id in s.videos && s.videos[id].user == requester
    ensures r.status != Ok ==> r.store == s
    ensures r.store.(videos := s.videos) == s
    ensures r.status == Ok ==> Replaces(s.videos, r.store.videos, id, update(s.videos[id]))
  {
    var st := Ownership.Check(s.videos, id, (v: Video) => v.user, requester);
    if st != Ok then Reply(st, s)
    else Reply(Ok, s.(videos := s.videos[id := update(s.videos[id])]))
  }

  /** `likeVideo`: 404 for an unknown id; otherwise the requester's like is
      toggled on that video and nothing else in the store changes. */
  function LikeVideo(s: Store, requester: UserId, id: VideoId): (r: Reply)
    ensures r.status == NotFound <==> id !in s.videos
    ensures r.status == Ok <==> id in s.videos
    ensures r.status == NotFound ==> r.store == s
    ensures r.store.(videos := s.videos) == s
    ensures r.status == Ok ==> Replaces(s.videos, r.store.videos, id, Reactions.Like(s.videos[id], requester))
  {
    if id !in s.videos then Reply(NotFound, s)
    else Reply(Ok, s.(videos := s.videos[id := Reactions.Like(s.videos[id], requester)]))
  }

  /** `dislikeVideo`: the mirror image of `LikeVideo`. */
  function DislikeVideo(s: Store, requester: UserId, id: VideoId): (r: Reply)
    ensures r.status == NotFound <==> id !in s.videos
    ensures r.status == Ok <==> id in s.videos
    ensures r.status == NotFound ==> r.store == s
    ensures r.store.(videos := s.videos) == s
    ensures r.status == Ok ==> Replaces(s.videos, r.store.videos, id, Reactions.Dislike(s.videos[id], requester))
  {
    if id !in s.videos then Reply(NotFound, s)
    else Reply(Ok, s.(videos := s.videos[id := Reactions.Dislike(s.videos[id], requester)]))
  }

  /** Liking through the handler keeps every stored video's reaction lists
      duplicate-free and disjoint. */
  lemma LikeVideoPreservesReactions(s: Store, requester: UserId, id: VideoId)
    requires ReactionsWellFormed(s)
    ensures ReactionsWellFormed(LikeVideo(s, requester, id).store)
  {
    if id in s.videos {
      Reactions.LikePreservesWellFormed(s.videos[id], requester);
    }
  }

  /** Disliking through the handler keeps every stored video's reaction lists
      duplicate-free and disjoint. */
  lemma DislikeVideoPreservesReactions(s: Store, requester: UserId, id: VideoId)
    requires ReactionsWellFormed(s)
    ensures ReactionsWellFormed(DislikeVideo(s, requester, id).store)
  {
    if id in s.videos {
      Reactions.DislikePreservesWellFormed(s.videos[id], requester);
    }
  }

  /** Uploading and deleting keep the reaction invariant, and so does an edit
      whose update leaves both reaction lists of the stored video as they
      were. */
  lemma OtherHandlersPreserveReactions(s: Store, requester: UserId, id: VideoId, input: VideoInput, update: Update)
    requires ReactionsWellFormed(s)
    ensures ReactionsWellFormed(CreateVideo(s, requester, input).store)
    ensures ReactionsWellFormed(DeleteVideo(s, requester, id).store)
    ensures id in s.videos && update(s.videos[id]).likes == s.videos[id].likes
                           && update(s.videos[id]).dislike == s.videos[id].dislike ==>
      ReactionsWellFormed(EditVideo(s, requester, id, update).store)
  {
  }

  /** An uploaded video is found by its id, owned by the uploader, and
      listed among the uploader's videos; once deleted it is answered 404. */
  lemma UploadFetchDelete(s: Store, requester: UserId, other: UserId, input: VideoInput)
    ensures var s2 := CreateVideo(s, requester, input).store;
      var id := FreshId(s);
      && FetchVideoById(s2, id).status == Ok
      && FetchVideoById(s2, id).value.value.user == requester
      && id in FetchVideosByUser(s2, requester)
      && FetchVideoById(DeleteVideo(s2, other, id).store, id).status == NotFound
  {
  }

  /** A video, once deleted, is answered 404 however many videos are
      uploaded afterwards: no upload reuses its identifier. */
  lemma DeletedVideoStaysDeleted(s: Store, requester: UserId, id: VideoId, uploads: seq<(UserId, VideoInput)>)
    requires IdsIssued(s)
    requires id in s.videos
    ensures FetchVideoById(UploadAll(DeleteVideo(s, requester, id).store, uploads), id).status == NotFound
  {
    assert InUse(s, id);
    UploadAllKeepsRetired(DeleteVideo(s, requester, id).store, uploads, id);
  }

  /** Uploads applied one after another, each by its own uploader. */
  function UploadAll(s: Store, uploads: seq<(UserId, VideoInput)>): Store
    decreases |uploads|
  {
    if uploads == [] then s
    else UploadAll(CreateVideo(s, uploads[0].0, uploads[0].1).store, uploads[1..])
  }

  /** An identifier below the counter that names no video is not given to
      any later upload. */
  lemma {:induction false} UploadAllKeepsRetired(s: Store, uploads: seq<(UserId, VideoInput)>, id: VideoId)
    requires id < s.nextId && id !in s.videos
    ensures id !in UploadAll(s, uploads).videos
    decreases |uploads|
  {
    if uploads != [] {
      UploadAllKeepsRetired(CreateVideo(s, uploads[0].0, uploads[0].1).store, uploads[1..], id);
    }
  }

  /** The update is not restricted: the uploader may write a `likes` list
      that repeats a user and overlaps `dislike` (the body
      `{"likes": [3, 3], "dislike": [3]}`), so `editVideo` can break the
      invariant the toggles keep. */
  lemma EditVideoCanBreakReactions()
    ensures var s := Store(map[], map[0 := Video(7, "t", None, "l", "p", "All", [], [])], map[], map[], 1);
      var update := (v: Video) => v.(likes := [3, 3], dislike := [3]);
      && ReactionsWellFormed(s)
      && EditVideo(s, 7, 0, update).status == Ok
      && !ReactionsWellFormed(EditVideo(s, 7, 0, update).store)
  {
    var s := Store(map[], map[0 := Video(7, "t", None, "l", "p", "All", [], [])], map[], map[], 1);
    var update := (v: Video) => v.(likes := [3, 3], dislike := [3]);
    var w := EditVideo(s, 7, 0, update).store.videos[0];
    assert w.likes[0] == w.likes[1];
  }
}
