/** The like/dislike toggle of a video (controllers/videoController.js,
    `likeVideo` and `dislikeVideo`): a user's reaction is recorded by
    membership in the `likes` and `dislike` lists of the video. */
module Reactions {
  import opened Model

  /** No user occurs twice in `s`. */
  ghost predicate NoDup(s: seq<UserId>) {
    forall i, j :: 0 <= i < j < |s| ==> s[i] != s[j]
  }

  /** The reaction lists of `v` are duplicate-free and disjoint. */
  ghost predicate WellFormed(v: Video) {
    && NoDup(v.likes)
    && NoDup(v.dislike)
    && forall x :: x in v.likes ==> x !in v.dislike
  }

  /** `s.filter(uid => uid !== u)`: every occurrence of `u` removed, every
      other user kept with the same multiplicity. */
  function Without(s: seq<UserId>, u: UserId): (r: seq<UserId>)
    ensures u !in r
    ensures forall x :: x != u ==> multiset(r)[x] == multiset(s)[x]
    ensures |r| <= |s|
  {
    if s == [] then []
    else
      assert s == [s[0]] + s[1..];
      if s[0] == u then Without(s[1..], u)
      else [s[0]] + Without(s[1..], u)
  }

  /** Removing a user that does not occur changes nothing. */
  lemma {:induction false} WithoutAbsent(s: seq<UserId>, u: UserId)
    requires u !in s
    ensures Without(s, u) == s
  {
    if s != [] {
      assert s == [s[0]] + s[1..];
      WithoutAbsent(s[1..], u);
    }
  }

  /** Removing a user keeps a list duplicate-free. */
  lemma {:induction false} WithoutNoDup(s: seq<UserId>, u: UserId)
    requires NoDup(s)
    ensures NoDup(Without(s, u))
  {
    if s != [] {
      assert NoDup(s[1..]);
      WithoutNoDup(s[1..], u);
      if s[0] != u {
        var rest := Without(s[1..], u);
        assert s[0] !in s[1..];
        assert multiset(rest)[s[0]] == multiset(s[1..])[s[0]] == 0;
        assert s[0] !in rest;
        var r := [s[0]] + rest;
        forall i, j | 0 <= i < j < |r|
          ensures r[i] != r[j]
        {
          if i == 0 {
            assert r[j] == rest[j - 1];
          } else {
            assert r[i] == rest[i - 1] && r[j] == rest[j - 1];
          }
        }
      }
    }
  }

  /** Appending a user that does not occur keeps a list duplicate-free. */
  lemma AppendNoDup(s: seq<UserId>, u: UserId)
    requires NoDup(s) && u !in s
    ensures NoDup(s + [u])
  {
  }

  /** `likeVideo`'s change to the video: a user already in `likes` is removed
      from it (and `dislike` is left alone); otherwise the user is appended to
      `likes` and removed from `dislike`. */
  function Like(v: Video, u: UserId): (w: Video)
    ensures w.(likes := v.likes, dislike := v.dislike) == v
    ensures u in w.likes <==> u !in v.likes
    ensures u in w.dislike <==> u in v.likes && u in v.dislike
    ensures multiset(w.likes)[u] == if u in v.likes then 0 else 1
    ensures forall x :: x != u ==> multiset(w.likes)[x] == multiset(v.likes)[x]
    ensures forall x :: x != u ==> multiset(w.dislike)[x] == multiset(v.dislike)[x]
    ensures u in v.likes ==> w.dislike == v.dislike
  {
    if u in v.likes then
      v.(likes := Without(v.likes, u))
    else
      v.(likes := v.likes + [u], dislike := Without(v.dislike, u))
  }

  /** `dislikeVideo`'s change to the video: the mirror image of `Like`. */
  function Dislike(v: Video, u: UserId): (w: Video)
    ensures w.(likes := v.likes, dislike := v.dislike) == v
    ensures u in w.dislike <==> u !in v.dislike
    ensures u in w.likes <==> u in v.dislike && u in v.likes
    ensures multiset(w.dislike)[u] == if u in v.dislike then 0 else 1
    ensures forall x :: x != u ==> multiset(w.dislike)[x] == multiset(v.dislike)[x]
    ensures forall x :: x != u ==> multiset(w.likes)[x] == multiset(v.likes)[x]
    ensures u in v.dislike ==> w.likes == v.likes
  {
    if u in v.dislike then
      v.(dislike := Without(v.dislike, u))
    else
      v.(dislike := v.dislike + [u], likes := Without(v.likes, u))
  }

  /** Liking keeps the reaction lists duplicate-free and disjoint. */
  lemma LikePreservesWellFormed(v: Video, u: UserId)
    requires WellFormed(v)
    ensures WellFormed(Like(v, u))
  {
    if u in v.likes {
      WithoutNoDup(v.likes, u);
    } else {
      AppendNoDup(v.likes, u);
      WithoutNoDup(v.dislike, u);
    }
    var w := Like(v, u);
    forall x | x in w.likes
      ensures x !in w.dislike
    {
      if x != u {
        assert multiset(w.likes)[x] == multiset(v.likes)[x];
        assert multiset(w.dislike)[x] == multiset(v.dislike)[x];
      }
    }
  }

  /** Disliking keeps the reaction lists duplicate-free and disjoint. */
  lemma DislikePreservesWellFormed(v: Video, u: UserId)
    requires WellFormed(v)
    ensures WellFormed(Dislike(v, u))
  {
    if u in v.dislike {
      WithoutNoDup(v.dislike, u);
    } else {
      AppendNoDup(v.dislike, u);
      WithoutNoDup(v.likes, u);
    }
    var w := Dislike(v, u);
    forall x | x in w.likes
      ensures x !in w.dislike
    {
      if x != u {
        assert multiset(w.likes)[x] == multiset(v.likes)[x];
        assert multiset(w.dislike)[x] == multiset(v.dislike)[x];
      }
    }
  }

  /** A user's reaction to a video, read off the two lists. */
  datatype Reaction = Neutral | Liked | Disliked

  function ReactionOf(v: Video, u: UserId): Reaction {
    if u in v.likes then Liked
    else if u in v.dislike then Disliked
    else Neutral
  }

  /** On a well-formed video, liking is the state machine
      Liked -> Neutral, Neutral -> Liked, Disliked -> Liked,
      and leaves every other user's reaction as it was. */
  lemma LikeTransition(v: Video, u: UserId)
    requires WellFormed(v)
    ensures ReactionOf(Like(v, u), u) == if ReactionOf(v, u) == Liked then Neutral else Liked
    ensures forall x :: x != u ==> ReactionOf(Like(v, u), x) == ReactionOf(v, x)
  {
    var w := Like(v, u);
    forall x | x != u
      ensures ReactionOf(w, x) == ReactionOf(v, x)
    {
      assert x in w.likes <==> x in v.likes by {
        assert multiset(w.likes)[x] == multiset(v.likes)[x];
      }
      assert x in w.dislike <==> x in v.dislike by {
        assert multiset(w.dislike)[x] == multiset(v.dislike)[x];
      }
    }
  }

  /** On a well-formed video, disliking is the state machine
      Disliked -> Neutral, Neutral -> Disliked, Liked -> Disliked,
      and leaves every other user's reaction as it was. */
  lemma DislikeTransition(v: Video, u: UserId)
    requires WellFormed(v)
    ensures ReactionOf(Dislike(v, u), u) == if ReactionOf(v, u) == Disliked then Neutral else Disliked
    ensures forall x :: x != u ==> ReactionOf(Dislike(v, u), x) == ReactionOf(v, x)
  {
    var w := Dislike(v, u);
    forall x | x != u
      ensures ReactionOf(w, x) == ReactionOf(v, x)
    {
      assert x in w.likes <==> x in v.likes by {
        assert multiset(w.likes)[x] == multiset(v.likes)[x];
      }
      assert x in w.dislike <==> x in v.dislike by {
        assert multiset(w.dislike)[x] == multiset(v.dislike)[x];
      }
    }
  }

  /** A user with no reaction who likes and then likes again leaves the video
      exactly as it was, list order included. */
  lemma LikeTwiceRestores(v: Video, u: UserId)
    requires u !in v.likes && u !in v.dislike
    ensures Like(Like(v, u), u) == v
  {
    WithoutAbsent(v.dislike, u);
    WithoutAppended(v.likes, u);
  }

  /** A user with no reaction who dislikes and then dislikes again leaves the
      video exactly as it was. */
  lemma DislikeTwiceRestores(v: Video, u: UserId)
    requires u !in v.likes && u !in v.dislike
    ensures Dislike(Dislike(v, u), u) == v
  {
    WithoutAbsent(v.likes, u);
    WithoutAppended(v.dislike, u);
  }

  /** Removing a user that was just appended to a list that lacked it gives
      back the original list. */
  lemma {:induction false} WithoutAppended(s: seq<UserId>, u: UserId)
    requires u !in s
    ensures Without(s + [u], u) == s
  {
    if s == [] {
      assert [u][1..] == [];
    } else {
      assert (s + [u])[1..] == s[1..] + [u];
      WithoutAppended(s[1..], u);
      assert s == [s[0]] + s[1..];
    }
  }
}
