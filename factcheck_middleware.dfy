/**
 * The fact-check validators. The vote guards read the vote lists embedded in
 * the freet, and the reference-link guards the links embedded in the freet,
 * not the separate Vote and ReferenceLink tables the fact-check handlers write.
 */
module FactcheckMiddleware {

  import opened Common
  import opened Text
  import opened Store
  import opened Http
  import FreetCollection

  /**
   * `FreetCollection.isVoteExists(freetId, req.session.userId)`, `None` when
   * it throws: the freet is missing, or nobody is signed in and a vote list it
   * has to search is not empty (`undefined.toString()`).
   */
  function SessionVoteExists(req: Request, freets: seq<Freet>, freetId: ObjectId): (r: Option<bool>)
    ensures r.None? <==>
      || FindFreet(freets, freetId).None?
      || (req.userId.None? && (FindFreet(freets, freetId).value.upvotes != [] || FindFreet(freets, freetId).value.downvotes != []))
    ensures r == Some(true) <==>
      && FindFreet(freets, freetId).Some? && req.userId.Some?
      && (req.userId.value in FindFreet(freets, freetId).value.upvotes || req.userId.value in FindFreet(freets, freetId).value.downvotes)
  {
    match FindFreet(freets, freetId)
    case None => None
    case Some(freet) =>
      if req.userId.Some? then Some(FreetCollection.IsVoteExists(freets, freetId, req.userId.value))
      else if freet.upvotes != [] || freet.downvotes != [] then None
      else Some(false)
  }

  /**
   * `hasNotAlreadyVoted`: 409 when the `freetId` is valid and the session user
   * is in the freet's embedded upvotes or downvotes; a malformed `freetId` passes.
   */
  function HasNotAlreadyVoted(req: Request, freets: seq<Freet>): (v: Verdict)
    ensures !req.params.freetId.WellFormed? ==> v.Next?
    ensures v.Respond? ==> v == Respond(Conflict)
    ensures v == Respond(Conflict) <==>
      req.params.freetId.WellFormed? && SessionVoteExists(req, freets, req.params.freetId.id) == Some(true)
    ensures req.userId.Some? && req.params.freetId.WellFormed? && FindFreet(freets, req.params.freetId.id).Some? ==>
      (v == Respond(Conflict) <==> FreetCollection.HasVote(FindFreet(freets, req.params.freetId.id).value, req.userId.value))
  {
    var p := req.params.freetId;
    if !p.WellFormed? then Next
    else match SessionVoteExists(req, freets, p.id)
      case None => Throw
      case Some(vote) => if vote then Respond(Conflict) else Next
  }

  /** `hasAlreadyVoted`: 404 unless the `freetId` is valid and the session user has voted on that freet. */
  function HasAlreadyVoted(req: Request, freets: seq<Freet>): (v: Verdict)
    ensures !req.params.freetId.WellFormed? ==> v == Respond(NotFound)
    ensures v.Respond? ==> v == Respond(NotFound)
    ensures v.Next? <==> req.params.freetId.WellFormed? && SessionVoteExists(req, freets, req.params.freetId.id) == Some(true)
    ensures req.userId.Some? && req.params.freetId.WellFormed? && FindFreet(freets, req.params.freetId.id).Some? ==>
      (v.Next? <==> FreetCollection.HasVote(FindFreet(freets, req.params.freetId.id).value, req.userId.value))
  {
    var p := req.params.freetId;
    if !p.WellFormed? then Respond(NotFound)
    else match SessionVoteExists(req, freets, p.id)
      case None => Throw
      case Some(vote) => if vote then Next else Respond(NotFound)
  }

  /** For a signed-in user and a stored freet, exactly one of the two vote guards lets the request through. */
  lemma ExactlyOneVoteGuardPasses(req: Request, freets: seq<Freet>)
    requires req.userId.Some? && req.params.freetId.WellFormed? && FindFreet(freets, req.params.freetId.id).Some?
    ensures HasNotAlreadyVoted(req, freets).Next? != HasAlreadyVoted(req, freets).Next?
  {
  }

  /**
   * `isValidURL`: 413 unless the link contains `http://` or `https://` followed
   * by two characters of `[A-Za-z0-9./-]`, anywhere in the text.
   */
  function IsValidUrl(req: Request): (v: Verdict)
    ensures v.Next? <==>
      exists i :: 0 <= i <= |req.body.link| && SchemeEnd(req.body.link, i).Some? && UrlRunAt(req.body.link, SchemeEnd(req.body.link, i).value)
    ensures !v.Next? ==> v == Respond(PayloadTooLarge)
  {
    UrlPatternSimplified(req.body.link);
    if !Text.IsValidUrl(req.body.link) then Respond(PayloadTooLarge) else Next
  }

  /** Text around the URL does not matter: a valid link stays valid inside a sentence. */
  lemma UrlMatchIsUnanchored(req: Request, before: string, after: string)
    requires IsValidUrl(req).Next?
    ensures IsValidUrl(req.(body := req.body.(link := before + req.body.link + after))).Next?
  {
    UrlPatternSimplified(req.body.link);
    IsValidUrlInside(req.body.link, before, after);
    UrlPatternSimplified(before + req.body.link + after);
  }

  /**
   * `isReferenceLinkExists`: 404 unless both `linkId` and `freetId` are valid
   * and `findLink` finds the link among the freet's embedded links; a missing
   * freet is a null dereference.
   */
  function IsReferenceLinkExists(req: Request, freets: seq<Freet>): (v: Verdict)
    ensures !(req.params.linkId.WellFormed? && req.params.freetId.WellFormed?) ==> v == Respond(NotFound)
    ensures v.Respond? ==> v == Respond(NotFound)
    ensures v.Throw? <==>
      req.params.linkId.WellFormed? && req.params.freetId.WellFormed? && FindFreet(freets, req.params.freetId.id).None?
    ensures v.Next? <==>
      && req.params.linkId.WellFormed? && req.params.freetId.WellFormed?
      && FindFreet(freets, req.params.freetId.id).Some?
      && exists l :: l in FindFreet(freets, req.params.freetId.id).value.links && l.id == req.params.linkId.id
  {
    var link := req.params.linkId;
    var freet := req.params.freetId;
    if !(link.WellFormed? && freet.WellFormed?) then Respond(NotFound)
    else match FindFreet(freets, freet.id)
      case None => Throw
      case Some(f) => if FreetCollection.FindLinkIn(f.links, link.id).None? then Respond(NotFound) else Next
  }

  /**
   * `isValidReferenceLinkModifier`: loads the link through `findLink` (a
   * missing freet or link is a null dereference) and answers 403 unless the
   * session user issued it.
   */
  function IsValidReferenceLinkModifier(req: Request, freets: seq<Freet>): (v: Verdict)
    ensures v.Respond? ==> v == Respond(Forbidden)
    ensures v.Throw? <==>
      (|| !req.params.freetId.WellFormed?
       || FindFreet(freets, req.params.freetId.id).None?
       || !req.params.linkId.WellFormed?
       || FreetCollection.FindLinkIn(FindFreet(freets, req.params.freetId.id).value.links, req.params.linkId.id).None?)
    ensures !v.Throw? ==>
      (v.Next? <==> IsSessionUser(req,
        FreetCollection.FindLinkIn(FindFreet(freets, req.params.freetId.id).value.links, req.params.linkId.id).value.issuerId))
  {
    if !req.params.freetId.WellFormed? then Throw
    else match FindFreet(freets, req.params.freetId.id)
      case None => Throw
      case Some(f) =>
        if !req.params.linkId.WellFormed? then Throw
        else match FreetCollection.FindLinkIn(f.links, req.params.linkId.id)
          case None => Throw
          case Some(link) => if IsSessionUser(req, link.issuerId) then Next else Respond(Forbidden)
  }
}
