/**
 * The filter as the API returns it: ids written as strings, the creator and
 * listed users by username, the tags by name.
 */
module FilterUtil {

  import opened Common
  import opened Store

  datatype FilterResponse = FilterResponse(id: string, creator: string, name: string, usernames: seq<string>, tags: seq<string>)

  /**
   * `constructFilterResponse` on a filter populated from `users` and `tags`.
   * `None` when the creator no longer exists (a null dereference); listed users
   * or tags that no longer exist are dropped by the populate.
   */
  function ConstructFilterResponse(f: Filter, users: seq<User>, tags: seq<Tag>): (r: Option<FilterResponse>)
    ensures r.Some? <==> FindUserById(users, f.creator).Some?
    ensures r.Some? ==>
      && ParseId(r.value.id) == Some(f.id)
      && r.value.creator == FindUserById(users, f.creator).value.username
      && r.value.name == f.name
      && |r.value.usernames| <= |f.usernames| && |r.value.tags| <= |f.tags|
    ensures r.Some? && (forall i :: 0 <= i < |f.usernames| ==> FindUserById(users, f.usernames[i]).Some?) ==>
      && |r.value.usernames| == |f.usernames|
      && forall i :: 0 <= i < |f.usernames| ==> r.value.usernames[i] == FindUserById(users, f.usernames[i]).value.username
    ensures r.Some? && (forall i :: 0 <= i < |f.tags| ==> FindTagById(tags, f.tags[i]).Some?) ==>
      && |r.value.tags| == |f.tags|
      && forall i :: 0 <= i < |f.tags| ==> r.value.tags[i] == FindTagById(tags, f.tags[i]).value.tag
  {
    IdStringRoundTrip(f.id);
    match FindUserById(users, f.creator)
    case None => None
    case Some(creator) =>
      Some(FilterResponse(
        IdString(f.id),
        creator.username,
        f.name,
        PopulatedUsernames(f.usernames, users),
        PopulatedTagNames(f.tags, tags)))
  }
}
