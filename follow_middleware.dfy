/**
 * The follow validators: the source type, the query of a follow listing, the
 * source a request names, self-follows and duplicate follows, and the follow
 * named in the route and who may delete it.
 */
module FollowMiddleware {

  import opened Common
  import opened Text
  import opened Tables
  import opened Store
  import opened Http
  import FollowCollection
  import TagCollection

  /** `isValidType`: 404 unless `type` is exactly `'User'` or `'Tag'`. */
  function IsValidType(req: Request): (v: Verdict)
    ensures v.Next? <==> req.body.kind == Some("User") || req.body.kind == Some("Tag")
    ensures !v.Next? ==> v == Respond(NotFound)
  {
    if req.body.kind != Some("User") && req.body.kind != Some("Tag") then Respond(NotFound) else Next
  }

  /** `isValidQuery`: 400 unless exactly one of `followingOf` and `followersOf` is given, and it is not empty. */
  function IsValidQuery(req: Request): (v: Verdict)
    ensures v.Next? <==>
      || (req.query.followingOf.Some? && req.query.followingOf.value != "" && req.query.followersOf.None?)
      || (req.query.followersOf.Some? && req.query.followersOf.value != "" && req.query.followingOf.None?)
    ensures !v.Next? ==> v == Respond(BadRequest)
  {
    var q := req.query;
    if || (q.followingOf.None? && q.followersOf.None?)
       || (q.followingOf.Some? && q.followersOf.Some?)
       || q.followingOf == Some("")
       || q.followersOf == Some("")
    then Respond(BadRequest)
    else Next
  }

  /** The username `isValidSource` looks up: `followingOf ?? followersOf ?? source`. */
  function SourceUsername(req: Request): (name: string)
    ensures req.query.followingOf.Some? ==> name == req.query.followingOf.value
    ensures req.query.followingOf.None? && req.query.followersOf.Some? ==> name == req.query.followersOf.value
    ensures req.query.followingOf.None? && req.query.followersOf.None? ==> name == req.body.source
  {
    if req.query.followingOf.Some? then req.query.followingOf.value
    else if req.query.followersOf.Some? then req.query.followersOf.value
    else req.body.source
  }

  /**
   * `isValidSource`: with no type or type `'User'`, 404 unless some user has the
   * looked-up username; with type `'Tag'`, 404 unless the source is `^\w+$`.
   * Any other type passes.
   */
  function IsValidSource(req: Request, users: seq<User>): (v: Verdict)
    ensures req.body.kind.None? || req.body.kind == Some("User") ==>
      (v.Next? <==> exists u :: u in users && u.username == SourceUsername(req))
    ensures req.body.kind == Some("Tag") ==>
      (v.Next? <==> |req.body.source| > 0 && forall i :: 0 <= i < |req.body.source| ==> IsWordChar(req.body.source[i]))
    ensures req.body.kind.Some? && req.body.kind != Some("User") && req.body.kind != Some("Tag") ==> v.Next?
    ensures !v.Next? ==> v == Respond(NotFound)
  {
    if req.body.kind.None? || req.body.kind == Some("User") then
      if FindUserByUsername(users, SourceUsername(req)).None? then Respond(NotFound) else Next
    else if req.body.kind == Some("Tag") then
      if !IsWord(req.body.source) then Respond(NotFound) else Next
    else Next
  }

  /**
   * `isNotSelf`: only for type `'User'`, loads the user named by the source (a
   * missing one is a null dereference) and answers 409 when it is the session user.
   */
  function IsNotSelf(req: Request, users: seq<User>): (v: Verdict)
    ensures req.body.kind != Some("User") ==> v.Next?
    ensures req.body.kind == Some("User") ==>
      && (v.Throw? <==> FindUserByUsername(users, req.body.source).None?)
      && (!v.Throw? ==> (v == Respond(Conflict) <==> IsSessionUser(req, FindUserByUsername(users, req.body.source).value.id)))
    ensures v.Respond? ==> v == Respond(Conflict)
  {
    if req.body.kind == Some("User") then
      match FindUserByUsername(users, req.body.source)
      case None => Throw
      case Some(user) => if IsSessionUser(req, user.id) then Respond(Conflict) else Next
    else Next
  }

  /**
   * `findOneByIds(req.session.userId, target)` finds a follow. Nobody signed in
   * is taken to follow nothing.
   */
  predicate AlreadyFollows(req: Request, follows: seq<Follow>, target: ObjectId)
    ensures AlreadyFollows(req, follows, target) <==>
      exists f :: f in follows && IsSessionUser(req, f.follower) && f.following == target
  {
    req.userId.Some? && FollowCollection.FindOneByIds(follows, req.userId.value, target).Some?
  }

  /**
   * `isNotInFollowing`: resolves the source (the user with that name for type
   * `'User'`, a missing one being a null dereference; for any other type the tag
   * found or created through `findOrCreateOne`, so a tag may be created even when
   * the request is then refused) and answers 409 when the session user already
   * follows it, whatever `sourceModel` the existing follow records.
   */
  method IsNotInFollowing(db: Database, req: Request) returns (v: Verdict)
    requires db.Valid()
    modifies db`tags, db`nextSerial
    ensures db.Valid()
    ensures req.body.kind == Some("User") ==> db.tags == old(db.tags) && db.nextSerial == old(db.nextSerial)
    ensures req.body.kind == Some("User") ==>
      match FindUserByUsername(db.users, req.body.source)
      case None => v.Throw?
      case Some(user) => (v == Respond(Conflict) <==> AlreadyFollows(req, db.follows, user.id))
    ensures req.body.kind != Some("User") ==>
      var (tag, tags, next) := TagCollection.FindOrCreate(old(db.tags), old(db.nextSerial), req.body.source);
      && db.tags == tags && db.nextSerial == next
      && (v == Respond(Conflict) <==> AlreadyFollows(req, db.follows, tag.id))
    ensures v.Throw? <==> req.body.kind == Some("User") && FindUserByUsername(db.users, req.body.source).None?
    ensures v.Respond? ==> v == Respond(Conflict)
  {
    var target: ObjectId;
    if req.body.kind == Some("User") {
      var user := FindUserByUsername(db.users, req.body.source);
      if user.None? {
        return Throw;
      }
      target := user.value.id;
    } else {
      var tag := TagCollection.FindOrCreateOne(db, req.body.source);
      target := tag.id;
    }
    if AlreadyFollows(req, db.follows, target) {
      v := Respond(Conflict);
    } else {
      v := Next;
    }
  }

  /** `isFollowExists`: 404 unless the `followId` parameter is a valid id of a stored follow. */
  function IsFollowExists(req: Request, follows: seq<Follow>): (v: Verdict)
    ensures v.Next? <==> req.params.followId.WellFormed? && exists f :: f in follows && f.id == req.params.followId.id
    ensures !v.Next? ==> v == Respond(NotFound)
  {
    var p := req.params.followId;
    if p.WellFormed? && FollowCollection.FindOne(follows, p.id).Some? then Next else Respond(NotFound)
  }

  /**
   * `isValidFollowModifier`: loads the follow and its populated follower (a
   * missing one is a null dereference) and answers 403 unless the session user
   * is the follower.
   */
  function IsValidFollowModifier(req: Request, follows: seq<Follow>, users: seq<User>): (v: Verdict)
    ensures v.Throw? <==>
      (|| !req.params.followId.WellFormed?
       || FollowCollection.FindOne(follows, req.params.followId.id).None?
       || FindUserById(users, FollowCollection.FindOne(follows, req.params.followId.id).value.follower).None?)
    ensures v.Respond? ==> v.status == Forbidden
    ensures !v.Throw? ==> (v.Next? <==> IsSessionUser(req, FollowCollection.FindOne(follows, req.params.followId.id).value.follower))
  {
    var p := req.params.followId;
    if !p.WellFormed? then Throw
    else match FollowCollection.FindOne(follows, p.id)
      case None => Throw
      case Some(follow) =>
        match FindUserById(users, follow.follower)
        case None => Throw
        case Some(follower) => if IsSessionUser(req, follower.id) then Next else Respond(Forbidden)
  }
}
