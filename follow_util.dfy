/**
 * The follow as the API returns it: the follower by username and the followed
 * source by username or tag name, depending on which table it refers to.
 */
module FollowUtil {

  import opened Common
  import opened Store

  datatype FollowResponse = FollowResponse(id: string, follower: string, following: string, sourceModel: SourceModel)

  /** The populated `following`: a tag for `'Tag'` follows, a user otherwise, `None` when it no longer exists. */
  function FollowingName(f: Follow, users: seq<User>, tags: seq<Tag>): (r: Option<string>)
    ensures f.sourceModel == SourceTag ==>
      (r.Some? <==> FindTagById(tags, f.following).Some?) && (r.Some? ==> r.value == FindTagById(tags, f.following).value.tag)
    ensures f.sourceModel == SourceUser ==>
      (r.Some? <==> FindUserById(users, f.following).Some?) && (r.Some? ==> r.value == FindUserById(users, f.following).value.username)
  {
    match f.sourceModel
    case SourceTag =>
      (match FindTagById(tags, f.following)
       case None => None
       case Some(t) => Some(t.tag))
    case SourceUser =>
      (match FindUserById(users, f.following)
       case None => None
       case Some(u) => Some(u.username))
  }

  /**
   * `constructFollowResponse` on a follow populated from `users` and `tags`;
   * `None` when the follower or the followed source no longer exists.
   */
  function ConstructFollowResponse(f: Follow, users: seq<User>, tags: seq<Tag>): (r: Option<FollowResponse>)
    ensures r.Some? <==> FindUserById(users, f.follower).Some? && FollowingName(f, users, tags).Some?
    ensures r.Some? ==>
      && ParseId(r.value.id) == Some(f.id)
      && r.value.follower == FindUserById(users, f.follower).value.username
      && r.value.sourceModel == f.sourceModel
    ensures r.Some? && f.sourceModel == SourceTag ==> r.value.following == FindTagById(tags, f.following).value.tag
    ensures r.Some? && f.sourceModel == SourceUser ==> r.value.following == FindUserById(users, f.following).value.username
  {
    IdStringRoundTrip(f.id);
    match FindUserById(users, f.follower)
    case None => None
    case Some(follower) =>
      match FollowingName(f, users, tags)
      case None => None
      case Some(following) => Some(FollowResponse(IdString(f.id), follower.username, following, f.sourceModel))
  }
}
