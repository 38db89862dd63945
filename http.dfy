/**
 * An incoming Express request, reduced to the parts the validators and
 * handlers read: the session's user, the route parameters, the query string
 * and the JSON body.
 */
module Http {

  import opened Common

  /** `req.params`: each id parameter a route may declare. */
  datatype Params = Params(freetId: IdParam, filterId: IdParam, followId: IdParam, linkId: IdParam)

  /** `req.query`: `None` is a parameter that was not given (`undefined`). */
  datatype Query = Query(
    name: Option<string>,
    usernames: Option<string>,
    tags: Option<string>,
    followingOf: Option<string>,
    followersOf: Option<string>)

  /**
   * `req.body`. The string and list fields are taken to be present; `kind` is
   * `req.body.type`, which the follow validators compare against `undefined`.
   */
  datatype Body = Body(
    content: string,
    name: string,
    usernames: seq<string>,
    tags: seq<string>,
    kind: Option<string>,
    source: string,
    credible: bool,
    link: string)

  /** `userId` is `req.session.userId`, `None` when nobody is signed in. */
  datatype Request = Request(userId: Option<ObjectId>, params: Params, query: Query, body: Body)

  /**
   * `isUserLoggedIn` from the user module (which is not part of this model):
   * 403 unless the session holds a user.
   */
  function IsUserLoggedIn(req: Request): (v: Verdict)
    ensures v.Next? <==> req.userId.Some?
    ensures !v.Next? ==> v == Respond(Forbidden)
  {
    if req.userId.Some? then Next else Respond(Forbidden)
  }

  /**
   * Whether the session user is the user `id`: the source compares
   * `req.session.userId` with `id.toString()`, which fails when nobody is signed in.
   */
  predicate IsSessionUser(req: Request, id: ObjectId) {
    req.userId == Some(id)
  }
}
