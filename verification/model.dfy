/** The documents of the backend (users, videos, comments, channels) and the
    store that holds them: one map from identifier to document per collection.
    Timestamps, population of references and schema validation are not part of
    the model. */
module Model {
  import opened Common

  type UserId = nat
  type VideoId = nat
  type CommentId = nat
  type ChannelId = nat

  /** A session token, opaque to the backend. */
  type Token = string

  /** An account. `password` holds the digest produced at sign-up. */
  datatype User = User(
    userName: string,
    email: string,
    password: string,
    profilePic: Option<string>,
    channelName: string,
    about: string)

  /** A video's metadata, its uploader `user`, and the two reaction lists. */
  datatype Video = Video(
    user: UserId,
    title: string,
    description: Option<string>,
    videoLink: string,
    thumbnail: string,
    videoType: string,
    likes: seq<UserId>,
    dislike: seq<UserId>)

  /** A comment by `user` on `video`. */
  datatype Comment = Comment(user: UserId, video: VideoId, message: string)

  /** A channel and the single user that owns it. */
  datatype Channel = Channel(
    channelName: string,
    owner: UserId,
    description: string,
    channelBanner: string,
    subscribers: int,
    videos: seq<VideoId>)

  /** The document store: one collection per document kind, and the counter
      from which identifiers are drawn. Like an ObjectId, an identifier is
      never handed out twice, even after its document is deleted: `nextId`
      only grows. */
  datatype Store = Store(
    users: map<UserId, User>,
    videos: map<VideoId, Video>,
    comments: map<CommentId, Comment>,
    channels: map<ChannelId, Channel>,
    nextId: nat)

  /** The store before any request. */
  const EmptyStore: Store := Store(map[], map[], map[], map[], 0)

  /** `k` is the identifier of a stored document of some collection. */
  predicate InUse(s: Store, k: nat) {
    k in s.users || k in s.videos || k in s.comments || k in s.channels
  }

  /** Every stored identifier lies below the counter. Since deletions never
      lower the counter, a deleted document's identifier stays below it too. */
  ghost predicate IdsIssued(s: Store) {
    forall k: nat :: InUse(s, k) ==> k < s.nextId
  }

  /** The identifier a newly saved document receives: never below the
      counter, so no identifier issued before is reissued, and above every
      identifier in use. On a store whose identifiers were all issued from
      the counter it is the counter itself. */
  function FreshId(s: Store): (id: nat)
    ensures s.nextId <= id
    ensures forall k: nat :: InUse(s, k) ==> k < id
    ensures IdsIssued(s) ==> id == s.nextId
  {
    var keys := s.users.Keys + s.videos.Keys + s.comments.Keys + s.channels.Keys;
    var k := NextKey(keys);
    assert forall j: nat :: InUse(s, j) <==> j in keys;
    if k < s.nextId then s.nextId else k
  }

  /** The outcome of a handler that may write: the status sent and the store afterwards. */
  datatype Reply = Reply(status: Status, store: Store)

  /** The outcome of a read-only handler: the status sent and the document found, if any. */
  datatype Lookup<T> = Lookup(status: Status, value: Option<T>)

  /** A `findById` that answers 200 with the document, or 404 when the id is unused. */
  function FindById<T>(m: map<nat, T>, id: nat): (r: Lookup<T>)
    ensures r.status == NotFound <==> id !in m
    ensures r.status == Ok <==> id in m
    ensures r.value.Some? <==> id in m
    ensures r.value.Some? ==> r.value.value == m[id]
  {
    if id in m then Lookup(Ok, Some(m[id])) else Lookup(NotFound, None)
  }

  /** `m2` is `m` with document `doc` saved under the new key `id`. */
  ghost predicate Adds<T>(m: map<nat, T>, m2: map<nat, T>, id: nat, doc: T) {
    && id !in m
    && m2.Keys == m.Keys + {id}
    && m2[id] == doc
    && forall k :: k in m ==> m2[k] == m[k]
  }

  /** `m2` is `m` with the document under `id` replaced by `doc`. */
  ghost predicate Replaces<T>(m: map<nat, T>, m2: map<nat, T>, id: nat, doc: T) {
    && id in m
    && m2.Keys == m.Keys
    && m2[id] == doc
    && forall k :: k in m && k != id ==> m2[k] == m[k]
  }

  /** `m2` is `m` without the document under `id`, and nothing else changed. */
  ghost predicate Removes<T>(m: map<nat, T>, m2: map<nat, T>, id: nat) {
    && id in m
    && m2.Keys == m.Keys - {id}
    && forall k :: k in m2 ==> m2[k] == m[k]
  }
}
