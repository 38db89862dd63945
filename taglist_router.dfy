/**
 * The taglist routes (`/api/tags/:freetId?`): reading, attaching, replacing
 * and removing the list of tags of a freet. Only the author of the freet may
 * change it, and a freet has at most one taglist.
 */
module TaglistRouter {

  import opened Common
  import opened Text
  import Tables
  import opened Store
  import opened Http
  import opened TaglistUtil
  import opened TaglistMiddleware
  import FreetMiddleware
  import TaglistCollection
  import TagCollection

  /** What a taglist route answers with (the message texts are left out). */
  datatype TaglistBody = OneTaglist(taglist: TaglistResponse) | Message

  /**
   * `GET /api/tags/:freetId?`: after `isFreetExists` the handler calls
   * `TaglistCollection.findOrCreateOne`, which the collection does not define,
   * so the request fails without a response.
   */
  function GetTaglist(req: Request, freets: seq<Freet>): (r: Response<TaglistBody>)
    ensures FreetMiddleware.IsFreetExists(req, freets).IsFailure() ==> r == Error(NotFound)
    ensures FreetMiddleware.IsFreetExists(req, freets).Next? ==> r == NoResponse
    ensures !r.Reply?
  {
    var freet := FreetMiddleware.IsFreetExists(req, freets);
    if freet.IsFailure() then Stopped(freet) else NoResponse
  }

  /** The checks every changing taglist route starts with: signed in, the freet exists, and the session user wrote it. */
  function AuthorChain(req: Request, freets: seq<Freet>, users: seq<User>): (v: Verdict)
    ensures req.userId.None? ==> v == Respond(Forbidden)
    ensures req.userId.Some? && FreetMiddleware.IsFreetExists(req, freets).IsFailure() ==> v == Respond(NotFound)
    ensures v.Respond? ==> v.status in {Forbidden, NotFound}
    ensures v.Next? <==>
      && req.userId.Some? && req.params.freetId.WellFormed? && FindFreet(freets, req.params.freetId.id).Some?
      && FindUserById(users, FindFreet(freets, req.params.freetId.id).value.authorId).Some?
      && IsSessionUser(req, FindFreet(freets, req.params.freetId.id).value.authorId)
  {
    var signedIn := IsUserLoggedIn(req);
    :- signedIn;
    :- FreetMiddleware.IsFreetExists(req, freets);
    :- FreetMiddleware.IsValidFreetModifier(req, freets, users);
    Next
  }

  /** The validators of `POST /api/tags/:freetId?`, in order. */
  function PostTaglistChain(req: Request, freets: seq<Freet>, users: seq<User>, taglists: seq<Taglist>): (v: Verdict)
    ensures AuthorChain(req, freets, users).IsFailure() ==> v == AuthorChain(req, freets, users)
    ensures AuthorChain(req, freets, users).Next? && TaglistCollection.FindOne(taglists, req.params.freetId.id).Some? ==>
      v == Respond(Conflict)
    ensures v.Next? <==>
      && AuthorChain(req, freets, users).Next?
      && TaglistCollection.FindOne(taglists, req.params.freetId.id).None?
      && IsValidTaglist(req).Next?
  {
    var author := AuthorChain(req, freets, users);
    :- author;
    :- NoTaglistExists(req, taglists);
    :- IsValidTaglist(req);
    Next
  }

  /**
   * The validator checks the `tags` query when one is given, while the handler
   * stores the body's tags: with an empty `tags` query, any body list gets
   * through, names that are not `^\w+$` included.
   */
  lemma EmptyTagsQueryAdmitsAnyBody(req: Request, freets: seq<Freet>, users: seq<User>, taglists: seq<Taglist>)
    requires req.query.tags == Some("")
    requires AuthorChain(req, freets, users).Next? && TaglistCollection.FindOne(taglists, req.params.freetId.id).None?
    ensures PostTaglistChain(req, freets, users, taglists).Next?
    ensures PostTaglistChain(req.(body := req.body.(tags := [""])), freets, users, taglists).Next?
  {
  }

  /** The response carrying a stored taglist; a projection that throws sends nothing. */
  function SavedTaglist(t: Taglist, freets: seq<Freet>, tags: seq<Tag>): (r: Response<TaglistBody>)
    ensures r.Reply? <==> ConstructTaglistResponse(t, freets, tags).Some?
    ensures r.Reply? ==> r == Reply(OK, OneTaglist(ConstructTaglistResponse(t, freets, tags).value))
    ensures !r.Reply? ==> r == NoResponse
  {
    match ConstructTaglistResponse(t, freets, tags)
    case None => NoResponse
    case Some(x) => Reply(OK, OneTaglist(x))
  }

  /**
   * `POST /api/tags/:freetId?`: after the chain, the body's tag names are found
   * or created and a taglist for the freet is stored; 200. The freet had none,
   * so at most one taglist per freet is kept.
   */
  method PostTaglist(db: Database, req: Request) returns (r: Response<TaglistBody>)
    requires db.Valid()
    modifies db`taglists, db`tags, db`nextSerial
    ensures db.Valid()
    ensures var v := PostTaglistChain(req, old(db.freets), old(db.users), old(db.taglists));
      v.IsFailure() ==>
        r == Stopped(v) && db.taglists == old(db.taglists) && db.tags == old(db.tags) && db.nextSerial == old(db.nextSerial)
    ensures PostTaglistChain(req, old(db.freets), old(db.users), old(db.taglists)).Next? ==>
      var (found, tags, next) := TagCollection.FindOrCreateAll(old(db.tags), old(db.nextSerial), req.body.tags);
      var taglist := Taglist(ObjectId(next), req.params.freetId.id, TagCollection.Ids(found));
      && db.tags == tags && db.nextSerial == next + 1
      && db.taglists == old(db.taglists) + [taglist]
      && TaglistCollection.FindOne(db.taglists, req.params.freetId.id) == Some(taglist)
      && r == SavedTaglist(taglist, db.freets, db.tags)
    ensures TaglistCollection.OnePerFreet(old(db.taglists)) ==> TaglistCollection.OnePerFreet(db.taglists)
  {
    var v := PostTaglistChain(req, db.freets, db.users, db.taglists);
    if v.IsFailure() {
      return Stopped(v);
    }
    var found := TagCollection.FindOrCreateMany(db, req.body.tags);
    var taglist := TaglistCollection.AddOne(db, req.params.freetId.id, TagCollection.Ids(found));
    r := SavedTaglist(taglist, db.freets, db.tags);
  }

  /** The validators of `DELETE /api/tags/:freetId?`, in order. */
  function DeleteTaglistChain(req: Request, freets: seq<Freet>, users: seq<User>, taglists: seq<Taglist>): (v: Verdict)
    ensures AuthorChain(req, freets, users).IsFailure() ==> v == AuthorChain(req, freets, users)
    ensures v.Next? <==>
      && AuthorChain(req, freets, users).Next?
      && TaglistCollection.FindOne(taglists, req.params.freetId.id).Some?
    ensures AuthorChain(req, freets, users).Next? && !v.Next? ==> v == Respond(NotFound)
  {
    var author := AuthorChain(req, freets, users);
    :- author;
    :- IsTaglistExists(req, taglists);
    Next
  }

  /** For the author of a stored freet, exactly one of attaching and removing a taglist gets past its presence check. */
  lemma PostAndDeleteExclusive(req: Request, freets: seq<Freet>, users: seq<User>, taglists: seq<Taglist>)
    requires AuthorChain(req, freets, users).Next? && IsValidTaglist(req).Next?
    ensures PostTaglistChain(req, freets, users, taglists).Next? != DeleteTaglistChain(req, freets, users, taglists).Next?
  {
  }

  /** `DELETE /api/tags/:freetId?`: after the chain, the freet's taglist is removed; 200. */
  method DeleteTaglist(db: Database, req: Request) returns (r: Response<TaglistBody>)
    requires db.Valid()
    modifies db`taglists
    ensures db.Valid()
    ensures var v := DeleteTaglistChain(req, old(db.freets), old(db.users), old(db.taglists));
      && (v.IsFailure() ==> r == Stopped(v) && db.taglists == old(db.taglists))
      && (v.Next? ==>
            (&& r == Reply(OK, Message)
             && db.taglists == Tables.RemoveFirst(old(db.taglists), (t: Taglist) => t.freetId == req.params.freetId.id)))
    ensures (DeleteTaglistChain(req, old(db.freets), old(db.users), old(db.taglists)).Next?
      && TaglistCollection.OnePerFreet(old(db.taglists))) ==>
      TaglistCollection.FindOne(db.taglists, req.params.freetId.id).None?
  {
    var v := DeleteTaglistChain(req, db.freets, db.users, db.taglists);
    if v.IsFailure() {
      return Stopped(v);
    }
    var _ := TaglistCollection.DeleteOne(db, req.params.freetId.id);
    r := Reply(OK, Message);
  }

  /** The validators of `PATCH /api/tags/:freetId?`, in order. */
  function PatchTaglistChain(req: Request, freets: seq<Freet>, users: seq<User>, taglists: seq<Taglist>): (v: Verdict)
    ensures AuthorChain(req, freets, users).IsFailure() ==> v == AuthorChain(req, freets, users)
    ensures AuthorChain(req, freets, users).Next? && TaglistCollection.FindOne(taglists, req.params.freetId.id).None? ==>
      v == Respond(NotFound)
    ensures v.Next? <==>
      && AuthorChain(req, freets, users).Next?
      && TaglistCollection.FindOne(taglists, req.params.freetId.id).Some?
      && IsValidTaglist(req).Next?
  {
    var author := AuthorChain(req, freets, users);
    :- author;
    :- IsTaglistExists(req, taglists);
    :- IsValidTaglist(req);
    Next
  }

  /**
   * `PATCH /api/tags/:freetId?`: after the chain, the body's tag names are found
   * or created and become the tags of the freet's taglist; its id stays; 200.
   */
  method PatchTaglist(db: Database, req: Request) returns (r: Response<TaglistBody>)
    requires db.Valid()
    modifies db`taglists, db`tags, db`nextSerial
    ensures db.Valid()
    ensures var v := PatchTaglistChain(req, old(db.freets), old(db.users), old(db.taglists));
      v.IsFailure() ==>
        r == Stopped(v) && db.taglists == old(db.taglists) && db.tags == old(db.tags) && db.nextSerial == old(db.nextSerial)
    ensures PatchTaglistChain(req, old(db.freets), old(db.users), old(db.taglists)).Next? ==>
      var k := TaglistCollection.TaglistIndex(old(db.taglists), req.params.freetId.id).value;
      var (found, tags, next) := TagCollection.FindOrCreateAll(old(db.tags), old(db.nextSerial), req.body.tags);
      var taglist := old(db.taglists)[k].(tags := TagCollection.Ids(found));
      && db.tags == tags && db.nextSerial == next
      && db.taglists == old(db.taglists)[k := taglist]
      && r == SavedTaglist(taglist, db.freets, db.tags)
  {
    var v := PatchTaglistChain(req, db.freets, db.users, db.taglists);
    if v.IsFailure() {
      return Stopped(v);
    }
    var found := TagCollection.FindOrCreateMany(db, req.body.tags);
    var taglist := TaglistCollection.UpdateOne(db, req.params.freetId.id, TagCollection.Ids(found));
    r := SavedTaglist(taglist, db.freets, db.tags);
  }
}
