/**
 * The taglist validators: whether the freet in the route already has a
 * taglist, and whether a list of tag names is well formed.
 */
module TaglistMiddleware {

  import opened Common
  import opened Text
  import opened Store
  import opened Http
  import TaglistCollection
  import FreetMiddleware

  /** `isTaglistExists`: 404 unless the `freetId` parameter is valid and that freet has a taglist. */
  function IsTaglistExists(req: Request, taglists: seq<Taglist>): (v: Verdict)
    ensures v.Next? <==> req.params.freetId.WellFormed? && exists t :: t in taglists && t.freetId == req.params.freetId.id
    ensures !v.Next? ==> v == Respond(NotFound)
  {
    var p := req.params.freetId;
    if p.WellFormed? && TaglistCollection.FindOne(taglists, p.id).Some? then Next else Respond(NotFound)
  }

  /** `noTaglistExists`: 409 when the freet already has a taglist; a malformed id passes. */
  function NoTaglistExists(req: Request, taglists: seq<Taglist>): (v: Verdict)
    ensures v == Respond(Conflict) <==> req.params.freetId.WellFormed? && exists t :: t in taglists && t.freetId == req.params.freetId.id
    ensures v != Respond(Conflict) ==> v.Next?
    ensures !req.params.freetId.WellFormed? ==> v.Next?
  {
    var p := req.params.freetId;
    if p.WellFormed? && TaglistCollection.FindOne(taglists, p.id).Some? then Respond(Conflict) else Next
  }

  /** For a well-formed id exactly one of the two presence checks lets the request through. */
  lemma ExactlyOnePresenceCheckPasses(req: Request, taglists: seq<Taglist>)
    requires req.params.freetId.WellFormed?
    ensures IsTaglistExists(req, taglists).Next? != NoTaglistExists(req, taglists).Next?
  {
  }

  /**
   * `isValidTaglist` of the taglist module, the same rule as the freet module's:
   * the query wins over the body, `''` is the empty list, and 400 iff some
   * name is not `^\w+$`.
   */
  function IsValidTaglist(req: Request): (v: Verdict)
    ensures v.Next? <==> forall i :: 0 <= i < |FreetMiddleware.RequestTags(req)| ==> IsWord(FreetMiddleware.RequestTags(req)[i])
    ensures !v.Next? ==> v == Respond(BadRequest)
    ensures req.query.tags == Some("") ==> v.Next?
  {
    FreetMiddleware.CheckTags(FreetMiddleware.RequestTags(req))
  }
}
