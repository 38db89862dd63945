/**
 * The fact-check routes (`/api/credibility`): the votes and the reference
 * links of a freet. The handlers read and write the separate Vote and
 * ReferenceLink tables, while the vote and link guards read the lists embedded
 * in the freet, which these routes never change.
 */
module FactcheckRouter {

  import opened Common
  import Tables
  import Text
  import opened Store
  import opened Http
  import opened FactcheckUtil
  import opened FactcheckMiddleware
  import FreetMiddleware
  import FreetCollection
  import VoteCollection
  import ReferenceLinkCollection

  /** What a fact-check route answers with (the message texts are left out). */
  datatype FactcheckBody =
    | VoteList(votes: seq<VoteResponse>)
    | OneVote(vote: VoteResponse)
    | LinkList(links: seq<ReferenceLinkResponse>)
    | OneLink(link: ReferenceLinkResponse)
    | Message

  /** `GET /api/credibility/:freetId/votes`: the stored votes on an existing freet, projected. */
  function GetVotes(req: Request, freets: seq<Freet>, users: seq<User>, votes: seq<Vote>): (r: Response<FactcheckBody>)
    ensures FreetMiddleware.IsFreetExists(req, freets).IsFailure() ==> r == Error(NotFound)
    ensures FreetMiddleware.IsFreetExists(req, freets).Next? ==>
      var list := VoteCollection.FindAllByFreetId(votes, req.params.freetId.id);
      && (r.Reply? <==> forall i :: 0 <= i < |list| ==> ConstructVoteResponse(list[i], freets, users).Some?)
      && (r.Reply? ==>
            (&& r.status == OK && r.body.VoteList? && |r.body.votes| == |list|
             && forall i :: 0 <= i < |list| ==> Some(r.body.votes[i]) == ConstructVoteResponse(list[i], freets, users)))
      && (!r.Reply? ==> r == NoResponse)
  {
    var freet := FreetMiddleware.IsFreetExists(req, freets);
    if freet.IsFailure() then Stopped(freet)
    else
      var list := VoteCollection.FindAllByFreetId(votes, req.params.freetId.id);
      match MapAll(list, (v: Vote) => ConstructVoteResponse(v, freets, users))
      case None => NoResponse
      case Some(xs) => Reply(OK, VoteList(xs))
  }

  /** Every vote a listing shows is a stored vote on the freet of the route. */
  lemma GetVotesOnlyThatFreet(req: Request, freets: seq<Freet>, users: seq<User>, votes: seq<Vote>, x: VoteResponse)
    requires GetVotes(req, freets, users, votes).Reply?
    requires x in GetVotes(req, freets, users, votes).body.votes
    ensures req.params.freetId.WellFormed?
    ensures exists v :: (&& v in votes && v.freetId == req.params.freetId.id
                         && ConstructVoteResponse(v, freets, users) == Some(x))
  {
    var list := VoteCollection.FindAllByFreetId(votes, req.params.freetId.id);
    var body := GetVotes(req, freets, users, votes).body.votes;
    var i :| 0 <= i < |body| && body[i] == x;
    assert list[i] in list;
  }

  /** `GET /api/credibility/:freetId/links`: the stored reference links of an existing freet, projected. */
  function GetLinks(req: Request, freets: seq<Freet>, users: seq<User>, refLinks: seq<ReferenceLink>): (r: Response<FactcheckBody>)
    ensures FreetMiddleware.IsFreetExists(req, freets).IsFailure() ==> r == Error(NotFound)
    ensures FreetMiddleware.IsFreetExists(req, freets).Next? ==>
      var list := ReferenceLinkCollection.FindAllByFreetId(refLinks, req.params.freetId.id);
      && (r.Reply? <==> forall i :: 0 <= i < |list| ==> ConstructReferenceLinkResponse(list[i], freets, users).Some?)
      && (r.Reply? ==>
            (&& r.status == OK && r.body.LinkList? && |r.body.links| == |list|
             && forall i :: 0 <= i < |list| ==> Some(r.body.links[i]) == ConstructReferenceLinkResponse(list[i], freets, users)))
      && (!r.Reply? ==> r == NoResponse)
  {
    var freet := FreetMiddleware.IsFreetExists(req, freets);
    if freet.IsFailure() then Stopped(freet)
    else
      var list := ReferenceLinkCollection.FindAllByFreetId(refLinks, req.params.freetId.id);
      match MapAll(list, (l: ReferenceLink) => ConstructReferenceLinkResponse(l, freets, users))
      case None => NoResponse
      case Some(xs) => Reply(OK, LinkList(xs))
  }

  /** The validators of `POST /api/credibility/:freetId/votes`, in order. */
  function PostVoteChain(req: Request, freets: seq<Freet>): (v: Verdict)
    ensures req.userId.None? ==> v == Respond(Forbidden)
    ensures req.userId.Some? && FreetMiddleware.IsFreetExists(req, freets).IsFailure() ==> v == Respond(NotFound)
    ensures !v.Throw?
    ensures v.Next? <==>
      && req.userId.Some? && req.params.freetId.WellFormed? && FindFreet(freets, req.params.freetId.id).Some?
      && !FreetCollection.HasVote(FindFreet(freets, req.params.freetId.id).value, req.userId.value)
  {
    var signedIn := IsUserLoggedIn(req);
    :- signedIn;
    :- FreetMiddleware.IsFreetExists(req, freets);
    :- HasNotAlreadyVoted(req, freets);
    Next
  }

  /** The response carrying a new vote; a projection that throws sends nothing. */
  function CreatedVote(v: Vote, freets: seq<Freet>, users: seq<User>): (r: Response<FactcheckBody>)
    ensures r.Reply? <==> ConstructVoteResponse(v, freets, users).Some?
    ensures r.Reply? ==> r == Reply(Created, OneVote(ConstructVoteResponse(v, freets, users).value))
    ensures !r.Reply? ==> r == NoResponse
  {
    match ConstructVoteResponse(v, freets, users)
    case None => NoResponse
    case Some(x) => Reply(Created, OneVote(x))
  }

  /**
   * `POST /api/credibility/:freetId/votes`: after the chain, one vote by the
   * session user is stored; 201. The freet's embedded vote lists, which the
   * guard reads, stay as they were, so the same request passes the guard again.
   */
  method PostVote(db: Database, req: Request) returns (r: Response<FactcheckBody>)
    requires db.Valid()
    modifies db`votes, db`nextSerial
    ensures db.Valid()
    ensures var v := PostVoteChain(req, old(db.freets));
      v.IsFailure() ==> r == Stopped(v) && db.votes == old(db.votes) && db.nextSerial == old(db.nextSerial)
    ensures PostVoteChain(req, old(db.freets)).Next? ==>
      var vote := Vote(ObjectId(old(db.nextSerial)), req.params.freetId.id, req.userId.value, req.body.credible);
      && db.votes == old(db.votes) + [vote] && db.nextSerial == old(db.nextSerial) + 1
      && r == CreatedVote(vote, db.freets, db.users)
      && PostVoteChain(req, db.freets).Next?
  {
    var v := PostVoteChain(req, db.freets);
    if v.IsFailure() {
      return Stopped(v);
    }
    var vote := VoteCollection.AddOne(db, req.params.freetId.id, req.userId.value, req.body.credible);
    r := CreatedVote(vote, db.freets, db.users);
  }

  /** The validators of `DELETE /api/credibility/:freetId/votes`, in order. */
  function DeleteVoteChain(req: Request, freets: seq<Freet>): (v: Verdict)
    ensures req.userId.None? ==> v == Respond(Forbidden)
    ensures req.userId.Some? && FreetMiddleware.IsFreetExists(req, freets).IsFailure() ==> v == Respond(NotFound)
    ensures !v.Throw?
    ensures v.Next? <==>
      && req.userId.Some? && req.params.freetId.WellFormed? && FindFreet(freets, req.params.freetId.id).Some?
      && FreetCollection.HasVote(FindFreet(freets, req.params.freetId.id).value, req.userId.value)
  {
    var signedIn := IsUserLoggedIn(req);
    :- signedIn;
    :- FreetMiddleware.IsFreetExists(req, freets);
    :- HasAlreadyVoted(req, freets);
    Next
  }

  /** For a signed-in user and a stored freet, exactly one of adding and deleting a vote gets past its validators. */
  lemma VoteRoutesExclusive(req: Request, freets: seq<Freet>)
    requires req.userId.Some? && req.params.freetId.WellFormed? && FindFreet(freets, req.params.freetId.id).Some?
    ensures PostVoteChain(req, freets).Next? != DeleteVoteChain(req, freets).Next?
  {
  }

  /**
   * `DELETE /api/credibility/:freetId/votes`: after the chain, the first stored
   * vote by the session user on that freet is removed; 200.
   */
  method DeleteVote(db: Database, req: Request) returns (r: Response<FactcheckBody>)
    requires db.Valid()
    modifies db`votes
    ensures db.Valid()
    ensures var v := DeleteVoteChain(req, old(db.freets));
      && (v.IsFailure() ==> r == Stopped(v) && db.votes == old(db.votes))
      && (v.Next? ==>
            (&& r == Reply(OK, Message)
             && db.votes == Tables.RemoveFirst(old(db.votes),
                  (x: Vote) => x.freetId == req.params.freetId.id && x.issuerId == req.userId.value)))
  {
    var v := DeleteVoteChain(req, db.freets);
    if v.IsFailure() {
      return Stopped(v);
    }
    var _ := VoteCollection.DeleteOne(db, req.params.freetId.id, req.userId.value);
    r := Reply(OK, Message);
  }

  /** The validators of `POST /api/credibility/:freetId/links`, in order. */
  function PostLinkChain(req: Request, freets: seq<Freet>): (v: Verdict)
    ensures req.userId.None? ==> v == Respond(Forbidden)
    ensures req.userId.Some? && FreetMiddleware.IsFreetExists(req, freets).IsFailure() ==> v == Respond(NotFound)
    ensures req.userId.Some? && FreetMiddleware.IsFreetExists(req, freets).Next? && IsValidUrl(req).IsFailure() ==> v == Respond(PayloadTooLarge)
    ensures v.Next? <==>
      req.userId.Some? && FreetMiddleware.IsFreetExists(req, freets).Next? && Text.IsValidUrl(req.body.link)
  {
    Text.UrlPatternSimplified(req.body.link);
    :- IsUserLoggedIn(req);
    :- FreetMiddleware.IsFreetExists(req, freets);
    :- IsValidUrl(req);
    Next
  }

  /** The response carrying a new reference link; a projection that throws sends nothing. */
  function CreatedLink(l: ReferenceLink, freets: seq<Freet>, users: seq<User>): (r: Response<FactcheckBody>)
    ensures r.Reply? <==> ConstructReferenceLinkResponse(l, freets, users).Some?
    ensures r.Reply? ==> r == Reply(Created, OneLink(ConstructReferenceLinkResponse(l, freets, users).value))
    ensures !r.Reply? ==> r == NoResponse
  {
    match ConstructReferenceLinkResponse(l, freets, users)
    case None => NoResponse
    case Some(x) => Reply(Created, OneLink(x))
  }

  /** `POST /api/credibility/:freetId/links`: after the chain, one reference link by the session user is stored; 201. */
  method PostLink(db: Database, req: Request) returns (r: Response<FactcheckBody>)
    requires db.Valid()
    modifies db`refLinks, db`nextSerial
    ensures db.Valid()
    ensures var v := PostLinkChain(req, old(db.freets));
      v.IsFailure() ==> r == Stopped(v) && db.refLinks == old(db.refLinks) && db.nextSerial == old(db.nextSerial)
    ensures PostLinkChain(req, old(db.freets)).Next? ==>
      var link := ReferenceLink(ObjectId(old(db.nextSerial)), req.params.freetId.id, req.userId.value, req.body.link);
      && db.refLinks == old(db.refLinks) + [link] && db.nextSerial == old(db.nextSerial) + 1
      && r == CreatedLink(link, db.freets, db.users)
  {
    var v := PostLinkChain(req, db.freets);
    if v.IsFailure() {
      return Stopped(v);
    }
    var link := ReferenceLinkCollection.AddOne(db, req.params.freetId.id, req.userId.value, req.body.link);
    r := CreatedLink(link, db.freets, db.users);
  }

  /** The validators of `DELETE /api/credibility/links/:linkId`, in order. */
  function DeleteLinkChain(req: Request, freets: seq<Freet>): (v: Verdict)
    ensures req.userId.None? ==> v == Respond(Forbidden)
    ensures req.userId.Some? && !req.params.freetId.WellFormed? ==> v == Respond(NotFound)
    ensures v.Next? ==>
      && req.userId.Some? && req.params.freetId.WellFormed? && req.params.linkId.WellFormed?
      && FindFreet(freets, req.params.freetId.id).Some?
      && FreetCollection.FindLinkIn(FindFreet(freets, req.params.freetId.id).value.links, req.params.linkId.id).Some?
      && IsSessionUser(req, FreetCollection.FindLinkIn(FindFreet(freets, req.params.freetId.id).value.links, req.params.linkId.id).value.issuerId)
  {
    var signedIn := IsUserLoggedIn(req);
    :- signedIn;
    :- IsReferenceLinkExists(req, freets);
    :- IsValidReferenceLinkModifier(req, freets);
    Next
  }

  /**
   * The route path `/links/:linkId` has no `freetId` parameter, which
   * `isReferenceLinkExists` requires, so the handler is never reached: the
   * answer is 403 or 404 and no link is removed.
   */
  lemma DeleteLinkUnreachable(req: Request, freets: seq<Freet>)
    requires req.params.freetId.Absent?
    ensures DeleteLinkChain(req, freets) == Respond(if req.userId.None? then Forbidden else NotFound)
  {
  }

  /** `DELETE /api/credibility/links/:linkId`: after the chain, the reference link with that id is removed; 200. */
  method DeleteLink(db: Database, req: Request) returns (r: Response<FactcheckBody>)
    requires db.Valid()
    modifies db`refLinks
    ensures db.Valid()
    ensures var v := DeleteLinkChain(req, old(db.freets));
      && (v.IsFailure() ==> r == Stopped(v) && db.refLinks == old(db.refLinks))
      && (v.Next? ==>
            (&& r == Reply(OK, Message)
             && forall l :: l in db.refLinks <==> l in old(db.refLinks) && l.id != req.params.linkId.id))
  {
    var v := DeleteLinkChain(req, db.freets);
    if v.IsFailure() {
      return Stopped(v);
    }
    var _ := ReferenceLinkCollection.DeleteOne(db, req.params.linkId.id);
    r := Reply(OK, Message);
  }
}
