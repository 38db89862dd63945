/**
 * Votes and reference links as the API returns them: the issuer by username
 * in place of its id, and the freet by its id written as a string.
 */
module FactcheckUtil {

  import opened Common
  import opened Store

  datatype VoteResponse = VoteResponse(id: string, freetId: string, issuer: string, credible: bool)

  datatype ReferenceLinkResponse = ReferenceLinkResponse(id: string, freetId: string, issuer: string, link: string)

  /**
   * `constructVoteResponse` on a vote populated from `freets` and `users`;
   * `None` when its issuer or its freet no longer exists.
   */
  function ConstructVoteResponse(v: Vote, freets: seq<Freet>, users: seq<User>): (r: Option<VoteResponse>)
    ensures r.Some? <==> FindUserById(users, v.issuerId).Some? && FindFreet(freets, v.freetId).Some?
    ensures r.Some? ==>
      && ParseId(r.value.id) == Some(v.id)
      && ParseId(r.value.freetId) == Some(v.freetId)
      && r.value.issuer == FindUserById(users, v.issuerId).value.username
      && r.value.credible == v.credible
  {
    IdStringRoundTrip(v.id);
    IdStringRoundTrip(v.freetId);
    match FindUserById(users, v.issuerId)
    case None => None
    case Some(issuer) =>
      match FindFreet(freets, v.freetId)
      case None => None
      case Some(freet) => Some(VoteResponse(IdString(v.id), IdString(freet.id), issuer.username, v.credible))
  }

  /**
   * `constructReferenceLinkResponse` on a record populated from `freets` and
   * `users`; `None` when its issuer or its freet no longer exists.
   */
  function ConstructReferenceLinkResponse(l: ReferenceLink, freets: seq<Freet>, users: seq<User>): (r: Option<ReferenceLinkResponse>)
    ensures r.Some? <==> FindUserById(users, l.issuerId).Some? && FindFreet(freets, l.freetId).Some?
    ensures r.Some? ==>
      && ParseId(r.value.id) == Some(l.id)
      && ParseId(r.value.freetId) == Some(l.freetId)
      && r.value.issuer == FindUserById(users, l.issuerId).value.username
      && r.value.link == l.link
  {
    IdStringRoundTrip(l.id);
    IdStringRoundTrip(l.freetId);
    match FindUserById(users, l.issuerId)
    case None => None
    case Some(issuer) =>
      match FindFreet(freets, l.freetId)
      case None => None
      case Some(freet) => Some(ReferenceLinkResponse(IdString(l.id), IdString(freet.id), issuer.username, l.link))
  }
}
