/** The taglist as the API returns it: ids written as strings, the tags by name. */
module TaglistUtil {

  import opened Common
  import opened Store

  datatype TaglistResponse = TaglistResponse(id: string, freetId: string, tags: seq<string>)

  /**
   * `constructTaglistResponse` on a taglist populated from `freets` and `tags`;
   * `None` when its freet no longer exists, and tags that no longer exist are dropped.
   */
  function ConstructTaglistResponse(t: Taglist, freets: seq<Freet>, tags: seq<Tag>): (r: Option<TaglistResponse>)
    ensures r.Some? <==> FindFreet(freets, t.freetId).Some?
    ensures r.Some? ==>
      && ParseId(r.value.id) == Some(t.id)
      && ParseId(r.value.freetId) == Some(t.freetId)
      && |r.value.tags| <= |t.tags|
    ensures r.Some? && (forall i :: 0 <= i < |t.tags| ==> FindTagById(tags, t.tags[i]).Some?) ==>
      && |r.value.tags| == |t.tags|
      && forall i :: 0 <= i < |t.tags| ==> r.value.tags[i] == FindTagById(tags, t.tags[i]).value.tag
  {
    IdStringRoundTrip(t.id);
    IdStringRoundTrip(t.freetId);
    match FindFreet(freets, t.freetId)
    case None => None
    case Some(freet) => Some(TaglistResponse(IdString(t.id), IdString(freet.id), PopulatedTagNames(t.tags, tags)))
  }
}
