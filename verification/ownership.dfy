/** The existence-then-ownership decision that `editVideo`, `editComment` and
    `deleteComment` each make inline before they write: an unknown id is
    answered 404, a requester other than the recorded owner 403, and only the
    owner is let through. */
module Ownership {
  import opened Common
  import opened Model

  /** The pre-mutation decision for document `id` of collection `m`,
      whose owner `ownerOf` reads off the document. `Ok` means "go ahead". */
  function Check<T>(m: map<nat, T>, id: nat, ownerOf: T -> UserId, requester: UserId): (r: Status)
    ensures r in {Ok, Forbidden, NotFound}
    ensures r == NotFound <==> id !in m
    ensures r == Forbidden <==> id in m && ownerOf(m[id]) != requester
    ensures r == Ok <==> id in m && ownerOf(m[id]) == requester
  {
    if id !in m then NotFound
    else if ownerOf(m[id]) != requester then Forbidden
    else Ok
  }
}
