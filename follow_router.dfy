/**
 * The follow routes (`/api/follow`): listing who a user follows or is followed
 * by, following a user or a tag, and deleting a follow.
 */
module FollowRouter {

  import opened Common
  import opened Text
  import opened Store
  import opened Http
  import opened FollowUtil
  import opened FollowMiddleware
  import FollowCollection
  import TagCollection

  /** What a follow route answers with (the message texts are left out). */
  datatype FollowBody = FollowList(follows: seq<FollowResponse>) | OneFollow(follow: FollowResponse) | Message

  /** The follows of a listing, projected; one projection that throws sends nothing. */
  function Listing(list: seq<Follow>, users: seq<User>, tags: seq<Tag>): (r: Response<FollowBody>)
    ensures r.Reply? <==> forall i :: 0 <= i < |list| ==> ConstructFollowResponse(list[i], users, tags).Some?
    ensures r.Reply? ==>
      && r.status == OK && r.body.FollowList? && |r.body.follows| == |list|
      && forall i :: 0 <= i < |list| ==> Some(r.body.follows[i]) == ConstructFollowResponse(list[i], users, tags)
    ensures !r.Reply? ==> r == NoResponse
  {
    match MapAll(list, (f: Follow) => ConstructFollowResponse(f, users, tags))
    case None => NoResponse
    case Some(xs) => Reply(OK, FollowList(xs))
  }

  /**
   * `GET /api/follow?followingOf=…` or `?followersOf=…`: the follows whose
   * follower (respectively whose followed source) is the named user.
   */
  function GetFollows(req: Request, users: seq<User>, tags: seq<Tag>, follows: seq<Follow>): (r: Response<FollowBody>)
    ensures IsValidQuery(req).IsFailure() ==> r == Error(BadRequest)
    ensures IsValidQuery(req).Next? && (req.body.kind.None? || req.body.kind == Some("User")) ==>
      (r == Error(NotFound) <==> forall u :: u in users ==> u.username != SourceUsername(req))
    ensures IsValidQuery(req).Next? && req.query.followingOf.Some? && FindUserByUsername(users, req.query.followingOf.value).Some?
      ==> (var u := FindUserByUsername(users, req.query.followingOf.value).value;
           (req.body.kind.None? || req.body.kind == Some("User")) ==>
             r == Listing(FollowCollection.FindAllByFollowerId(follows, u.id), users, tags))
    ensures IsValidQuery(req).Next? && req.query.followersOf.Some? && FindUserByUsername(users, req.query.followersOf.value).Some?
      ==> (var u := FindUserByUsername(users, req.query.followersOf.value).value;
           (req.body.kind.None? || req.body.kind == Some("User")) ==>
             r == Listing(FollowCollection.FindAllByFollowingId(follows, u.id), users, tags))
    ensures r.Reply? ==> r.status == OK && r.body.FollowList?
    ensures r.Error? ==> r.status in {BadRequest, NotFound}
  {
    var query := IsValidQuery(req);
    if query.IsFailure() then Stopped(query)
    else
      var source := IsValidSource(req, users);
      if source.IsFailure() then Stopped(source)
      else if req.query.followingOf.Some? then
        match FindUserByUsername(users, req.query.followingOf.value)
        case None => NoResponse
        case Some(u) => Listing(FollowCollection.FindAllByFollowerId(follows, u.id), users, tags)
      else
        match FindUserByUsername(users, req.query.followersOf.value)
        case None => NoResponse
        case Some(u) => Listing(FollowCollection.FindAllByFollowingId(follows, u.id), users, tags)
  }

  /** Every follow a `followingOf` listing shows has the named user as its follower. */
  lemma FollowingListingIsOwn(req: Request, users: seq<User>, tags: seq<Tag>, follows: seq<Follow>, x: FollowResponse)
    requires IsValidQuery(req).Next? && req.query.followingOf.Some? && req.body.kind.None?
    requires GetFollows(req, users, tags, follows).Reply?
    requires x in GetFollows(req, users, tags, follows).body.follows
    ensures FindUserByUsername(users, req.query.followingOf.value).Some?
    ensures exists f :: (&& f in follows
                         && f.follower == FindUserByUsername(users, req.query.followingOf.value).value.id
                         && ConstructFollowResponse(f, users, tags) == Some(x))
  {
    var u := FindUserByUsername(users, req.query.followingOf.value).value;
    var list := FollowCollection.FindAllByFollowerId(follows, u.id);
    var body := GetFollows(req, users, tags, follows).body.follows;
    var i :| 0 <= i < |body| && body[i] == x;
    assert list[i] in list;
  }

  /** The validators of `POST /api/follow` before `isNotInFollowing`, in order. */
  function PostFollowChecks(req: Request, users: seq<User>): (v: Verdict)
    ensures req.userId.None? ==> v == Respond(Forbidden)
    ensures req.userId.Some? && req.body.kind != Some("User") && req.body.kind != Some("Tag") ==> v == Respond(NotFound)
    ensures v.Respond? ==> v.status in {Forbidden, NotFound, Conflict}
    ensures v.Next? <==>
      && req.userId.Some?
      && (|| (req.body.kind == Some("User") && FindUserByUsername(users, SourceUsername(req)).Some?
                && FindUserByUsername(users, req.body.source).Some?
                && !IsSessionUser(req, FindUserByUsername(users, req.body.source).value.id))
          || (req.body.kind == Some("Tag") && IsWord(req.body.source)))
  {
    var signedIn := IsUserLoggedIn(req);
    :- signedIn;
    :- IsValidType(req);
    :- IsValidSource(req, users);
    :- IsNotSelf(req, users);
    Next
  }

  /** Following oneself by name is refused with 409 and creates nothing. */
  lemma SelfFollowRefused(req: Request, users: seq<User>, u: User)
    requires req.userId == Some(u.id) && req.body.kind == Some("User")
    requires req.query.followingOf.None? && req.query.followersOf.None?
    requires FindUserByUsername(users, req.body.source) == Some(u)
    ensures PostFollowChecks(req, users) == Respond(Conflict)
  {
  }

  /** The response carrying a new follow; a projection that throws sends nothing. */
  function CreatedFollow(f: Follow, users: seq<User>, tags: seq<Tag>): (r: Response<FollowBody>)
    ensures r.Reply? <==> ConstructFollowResponse(f, users, tags).Some?
    ensures r.Reply? ==> r == Reply(Created, OneFollow(ConstructFollowResponse(f, users, tags).value))
    ensures !r.Reply? ==> r == NoResponse
  {
    match ConstructFollowResponse(f, users, tags)
    case None => NoResponse
    case Some(x) => Reply(Created, OneFollow(x))
  }

  /**
   * `POST /api/follow`: after the validators, the source is resolved again (the
   * user of that name, or the tag found or created, which the check already
   * made) and one follow from the session user to it is stored; 201.
   */
  method PostFollow(db: Database, req: Request) returns (r: Response<FollowBody>)
    requires db.Valid()
    modifies db`follows, db`tags, db`nextSerial
    ensures db.Valid()
    ensures var v := PostFollowChecks(req, old(db.users));
      v.IsFailure() ==>
        && r == Stopped(v)
        && db.follows == old(db.follows) && db.tags == old(db.tags) && db.nextSerial == old(db.nextSerial)
    ensures PostFollowChecks(req, old(db.users)).Next? && req.body.kind == Some("User") ==>
      var target := FindUserByUsername(old(db.users), req.body.source).value;
      && db.tags == old(db.tags)
      && (AlreadyFollows(req, old(db.follows), target.id) ==>
            r == Error(Conflict) && db.follows == old(db.follows) && db.nextSerial == old(db.nextSerial))
      && (!AlreadyFollows(req, old(db.follows), target.id) ==>
            var follow := Follow(ObjectId(old(db.nextSerial)), req.userId.value, target.id, SourceUser);
            && db.follows == old(db.follows) + [follow] && db.nextSerial == old(db.nextSerial) + 1
            && r == CreatedFollow(follow, db.users, db.tags))
    ensures PostFollowChecks(req, old(db.users)).Next? && req.body.kind == Some("Tag") ==>
      var (tag, tags, next) := TagCollection.FindOrCreate(old(db.tags), old(db.nextSerial), req.body.source);
      && db.tags == tags
      && (AlreadyFollows(req, old(db.follows), tag.id) ==>
            r == Error(Conflict) && db.follows == old(db.follows) && db.nextSerial == next)
      && (!AlreadyFollows(req, old(db.follows), tag.id) ==>
            var follow := Follow(ObjectId(next), req.userId.value, tag.id, SourceTag);
            && db.follows == old(db.follows) + [follow] && db.nextSerial == next + 1
            && r == CreatedFollow(follow, db.users, db.tags))
  {
    var v := PostFollowChecks(req, db.users);
    if v.IsFailure() {
      return Stopped(v);
    }
    var w := IsNotInFollowing(db, req);
    if w.IsFailure() {
      return Stopped(w);
    }
    var target: ObjectId;
    var model: SourceModel;
    if req.body.kind == Some("User") {
      target := FindUserByUsername(db.users, req.body.source).value.id;
      model := SourceUser;
    } else {
      TagCollection.FindOrCreateIdempotent(old(db.tags), old(db.nextSerial), req.body.source);
      var tag := TagCollection.FindOrCreateOne(db, req.body.source);
      target := tag.id;
      model := SourceTag;
    }
    var follow := FollowCollection.AddOne(db, req.userId.value, target, model);
    r := CreatedFollow(follow, db.users, db.tags);
  }

  /** The validators of `DELETE /api/follow/:followId?`, in order. */
  function DeleteFollowChain(req: Request, users: seq<User>, follows: seq<Follow>): (v: Verdict)
    ensures req.userId.None? ==> v == Respond(Forbidden)
    ensures req.userId.Some? && IsFollowExists(req, follows).IsFailure() ==> v == Respond(NotFound)
    ensures v.Next? <==>
      && req.userId.Some? && IsFollowExists(req, follows).Next?
      && FindUserById(users, FollowCollection.FindOne(follows, req.params.followId.id).value.follower).Some?
      && IsSessionUser(req, FollowCollection.FindOne(follows, req.params.followId.id).value.follower)
  {
    var signedIn := IsUserLoggedIn(req);
    :- signedIn;
    :- IsFollowExists(req, follows);
    :- IsValidFollowModifier(req, follows, users);
    Next
  }

  /** `DELETE /api/follow/:followId?`: after the chain, exactly that follow is removed. */
  method DeleteFollow(db: Database, req: Request) returns (r: Response<FollowBody>)
    requires db.Valid()
    modifies db`follows
    ensures db.Valid()
    ensures var v := DeleteFollowChain(req, old(db.users), old(db.follows));
      && (v.IsFailure() ==> r == Stopped(v) && db.follows == old(db.follows))
      && (v.Next? ==>
            (&& r == Reply(OK, Message)
             && forall f :: f in db.follows <==> f in old(db.follows) && f.id != req.params.followId.id))
  {
    var v := DeleteFollowChain(req, db.users, db.follows);
    if v.IsFailure() {
      return Stopped(v);
    }
    var _ := FollowCollection.DeleteOne(db, req.params.followId.id);
    r := Reply(OK, Message);
  }
}
