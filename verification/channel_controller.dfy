/** The channel handlers of controllers/channelController.js. None of them is
    behind the authentication gate: `createChannel` takes the owner from the
    request body. */
module ChannelController {
  import opened Common
  import opened Model

  /** The fields `createChannel` reads from the request body. */
  datatype ChannelInput = ChannelInput(
    channelName: string,
    description: Option<string>,
    channelBanner: Option<string>,
    owner: UserId)

  /** Schema defaults, applied when a field is absent. */
  const DefaultDescription: string := ""
  const DefaultBanner: string := "https://example.com/default-banner.jpg"

  /** Each user owns at most one channel. */
  ghost predicate OneChannelPerOwner(channels: map<ChannelId, Channel>) {
    forall a, b :: a in channels && b in channels && channels[a].owner == channels[b].owner ==> a == b
  }

  /** `createChannel`: 400 and no change when the owner already has a
      channel; otherwise 201 and a new channel holding the given name and
      owner, the given description and banner or their defaults, no
      subscribers and no videos. */
  function CreateChannel(s: Store, input: ChannelInput): (r: Reply)
    ensures r.status in {Created, BadRequest}
    ensures r.status == BadRequest <==> exists k :: k in s.channels && s.channels[k].owner == input.owner
    ensures r.status == BadRequest ==> r.store == s
    ensures r.store.(channels := s.channels, nextId := s.nextId) == s
    ensures r.status == Created ==> r.store.nextId == FreshId(s) + 1
    ensures r.status == Created ==>
      var id := FreshId(s);
      && id in r.store.channels
      && Adds(s.channels, r.store.channels, id, r.store.channels[id])
      && r.store.channels[id].channelName == input.channelName
      && r.store.channels[id].owner == input.owner
      && r.store.channels[id].description == input.description.GetOr(DefaultDescription)
      && r.store.channels[id].channelBanner == input.channelBanner.GetOr(DefaultBanner)
      && r.store.channels[id].subscribers == 0
      && r.store.channels[id].videos == []
  {
    if FindOne(s.channels, (c: Channel) => c.owner == input.owner).Some? then Reply(BadRequest, s)
    else
      var channel := Channel(input.channelName, input.owner,
                             input.description.GetOr(DefaultDescription),
                             input.channelBanner.GetOr(DefaultBanner), 0, []);
      var id := FreshId(s);
      Reply(Created, s.(channels := s.channels[id := channel], nextId := id + 1))
  }

  /** `getChannelByUserId`: a channel owned by `userId`, or 404 when the user
      owns none. */
  function GetChannelByUserId(s: Store, userId: UserId): (r: Lookup<Channel>)
    ensures r.status in {Ok, NotFound}
    ensures r.status == NotFound <==> forall k :: k in s.channels ==> s.channels[k].owner != userId
    ensures r.status == NotFound ==> r.value.None?
    ensures r.status == Ok ==> r.value.Some? && r.value.value.owner == userId && r.value.value in s.channels.Values
  {
    match FindOne(s.channels, (c: Channel) => c.owner == userId)
    case None => Lookup(NotFound, None)
    case Some(k) => Lookup(Ok, Some(s.channels[k]))
  }

  /** `getChannelById`: the channel stored under `id`, or 404. */
  function GetChannelById(s: Store, id: ChannelId): (r: Lookup<Channel>)
    ensures r.status in {Ok, NotFound}
    ensures r.status == NotFound <==> id !in s.channels
    ensures r.status == Ok ==> r.value == Some(s.channels[id])
    ensures r.status == NotFound ==> r.value.None?
  {
    FindById(s.channels, id)
  }

  /** Creating a channel keeps at most one channel per owner. */
  lemma CreateChannelPreservesOneChannelPerOwner(s: Store, input: ChannelInput)
    requires OneChannelPerOwner(s.channels)
    ensures OneChannelPerOwner(CreateChannel(s, input).store.channels)
  {
  }

  /** While each owner has at most one channel, the lookup by owner finds the
      owner's channel itself. */
  lemma GetChannelByUserIdFindsTheChannel(s: Store, k: ChannelId)
    requires OneChannelPerOwner(s.channels)
    requires k in s.channels
    ensures GetChannelByUserId(s, s.channels[k].owner) == Lookup(Ok, Some(s.channels[k]))
  {
  }

  /** A channel just created is found both by its id and by its owner, and a
      second creation for the same owner is refused without change. */
  lemma CreateThenGetChannel(s: Store, input: ChannelInput, again: ChannelInput)
    requires OneChannelPerOwner(s.channels)
    requires CreateChannel(s, input).status == Created
    requires again.owner == input.owner
    ensures var s2 := CreateChannel(s, input).store;
      && GetChannelById(s2, FreshId(s)).value == Some(s2.channels[FreshId(s)])
      && GetChannelByUserId(s2, input.owner) == GetChannelById(s2, FreshId(s))
      && CreateChannel(s2, again) == Reply(BadRequest, s2)
  {
  }
}
