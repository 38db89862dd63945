/**
 * The freet validators: the freet named in the route exists, its content is
 * well formed, the session user wrote it, and a list of tag names is well formed.
 */
module FreetMiddleware {

  import opened Common
  import opened Text
  import opened Store
  import opened Http

  /** `isFreetExists`: 404 unless the `freetId` parameter is a valid id of a stored freet. */
  function IsFreetExists(req: Request, freets: seq<Freet>): (v: Verdict)
    ensures v.Next? <==> req.params.freetId.WellFormed? && exists f :: f in freets && f.id == req.params.freetId.id
    ensures !v.Next? ==> v == Respond(NotFound)
  {
    var p := req.params.freetId;
    if p.WellFormed? && FindFreet(freets, p.id).Some? then Next else Respond(NotFound)
  }

  /**
   * `isValidFreetContent`: 400 when the content is only white space (checked
   * first), then 413 when it is longer than 140 UTF-16 code units before trimming.
   */
  function IsValidFreetContent(req: Request): (v: Verdict)
    ensures v.Next? <==> !AllSpace(req.body.content) && Utf16Length(req.body.content) <= 140
    ensures v == Respond(BadRequest) <==> AllSpace(req.body.content)
    ensures v == Respond(PayloadTooLarge) <==> !AllSpace(req.body.content) && Utf16Length(req.body.content) > 140
    ensures !v.Throw?
  {
    var content := req.body.content;
    TrimEmptyIffAllSpace(content);
    if Trim(content) == [] then Respond(BadRequest)
    else if Utf16Length(content) > 140 then Respond(PayloadTooLarge)
    else Next
  }

  /** Emptiness is decided before length: 141 spaces are refused with 400, not 413. */
  lemma SpacesAreEmptyNotLong(req: Request)
    requires req.body.content == seq(141, _ => ' ')
    ensures Utf16Length(req.body.content) > 140
    ensures IsValidFreetContent(req) == Respond(BadRequest)
  {
    var content := req.body.content;
    assert forall i :: 0 <= i < |content| ==> IsJsSpace(content[i]);
  }

  /**
   * `isValidFreetModifier`: loads the freet and its populated author (a
   * missing freet or author is a null dereference) and answers 403 unless the
   * session user is the author.
   */
  function IsValidFreetModifier(req: Request, freets: seq<Freet>, users: seq<User>): (v: Verdict)
    ensures v.Throw? <==>
      (|| !req.params.freetId.WellFormed?
       || FindFreet(freets, req.params.freetId.id).None?
       || FindUserById(users, FindFreet(freets, req.params.freetId.id).value.authorId).None?)
    ensures v.Respond? ==> v.status == Forbidden
    ensures !v.Throw? ==> (v.Next? <==> IsSessionUser(req, FindFreet(freets, req.params.freetId.id).value.authorId))
  {
    var p := req.params.freetId;
    if !p.WellFormed? then Throw
    else match FindFreet(freets, p.id)
      case None => Throw
      case Some(freet) =>
        match FindUserById(users, freet.authorId)
        case None => Throw
        case Some(author) => if IsSessionUser(req, author.id) then Next else Respond(Forbidden)
  }

  /**
   * The tag names a request carries: the comma-separated `tags` query when it
   * is given (the empty query is the empty list), the body's list otherwise.
   */
  function RequestTags(req: Request): (tags: seq<string>)
    ensures req.query.tags == Some("") ==> tags == []
    ensures req.query.tags.Some? && req.query.tags.value != "" ==> tags == Split(req.query.tags.value, ',')
    ensures req.query.tags.None? ==> tags == req.body.tags
  {
    if req.query.tags.Some? then ParseList(req.query.tags.value) else req.body.tags
  }

  /** The early-exit loop over the tag names: 400 at the first one that is not `^\w+$`. */
  function CheckTags(tags: seq<string>): (v: Verdict)
    ensures v.Next? <==> forall i :: 0 <= i < |tags| ==> IsWord(tags[i])
    ensures !v.Next? ==> v == Respond(BadRequest)
  {
    if tags == [] then Next
    else if !IsWord(tags[0]) then Respond(BadRequest)
    else CheckTags(tags[1..])
  }

  /**
   * `isValidTaglist`: 400 iff some tag name is empty or holds a character
   * outside `[A-Za-z0-9_]`; the query takes precedence over the body.
   */
  function IsValidTaglist(req: Request): (v: Verdict)
    ensures v.Next? <==> forall i :: 0 <= i < |RequestTags(req)| ==> IsWord(RequestTags(req)[i])
    ensures !v.Next? ==> v == Respond(BadRequest)
    ensures req.query.tags == Some("") ==> v.Next?
    ensures req.query.tags.Some? ==>
      (v.Next? <==> forall i :: 0 <= i < |ParseList(req.query.tags.value)| ==> IsWord(ParseList(req.query.tags.value)[i]))
  {
    CheckTags(RequestTags(req))
  }

  /** A tags query with an empty entry (`a,,b`, or a trailing comma) is refused. */
  lemma EmptyTagEntryRefused(req: Request, k: nat)
    requires req.query.tags.Some? && req.query.tags.value != ""
    requires k < |Split(req.query.tags.value, ',')| && Split(req.query.tags.value, ',')[k] == ""
    ensures IsValidTaglist(req) == Respond(BadRequest)
  {
    assert !IsWord(RequestTags(req)[k]);
  }

  /** A tags query built by joining valid tag names with `,` is read back as those names and accepted. */
  lemma JoinedTagQueryAccepted(req: Request, tags: seq<string>)
    requires |tags| >= 1 && forall k :: 0 <= k < |tags| ==> IsWord(tags[k])
    requires req.query.tags == Some(Join(tags, ','))
    ensures RequestTags(req) == tags
    ensures IsValidTaglist(req) == Next
  {
    WordListRoundTrip(tags);
  }
}
