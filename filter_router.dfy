/**
 * The filter routes (`/api/filters`) and the content search (`/api/content`):
 * each route runs its validators in order, the first one that does not call
 * `next()` decides the response, and otherwise the handler reads or changes
 * the database.
 */
module FilterRouter {

  import opened Common
  import opened Text
  import opened Store
  import opened Http
  import opened FilterUtil
  import opened FilterMiddleware
  import FreetMiddleware
  import FilterCollection
  import FreetCollection
  import TagCollection

  /** What a filter route answers with (the message texts are left out). */
  datatype FilterBody = FilterList(filters: seq<FilterResponse>) | OneFilter(filter: FilterResponse) | Message

  /**
   * `UserCollection.retrieveUsers(usernames)` as the handlers use it: the ids of
   * the users with those names, in order. The user module is not part of this
   * model; a name with no user is taken to be skipped.
   */
  function RetrieveUsers(users: seq<User>, names: seq<string>): (r: seq<ObjectId>)
    ensures |r| <= |names|
    ensures forall x :: x in r ==> exists u :: u in users && u.id == x
  {
    if names == [] then []
    else
      var rest := RetrieveUsers(users, names[1..]);
      match FindUserByUsername(users, names[0])
      case Some(u) => [u.id] + rest
      case None => rest
  }

  /** When every name resolves, each position holds that user's id. */
  lemma {:induction false} RetrieveUsersResolved(users: seq<User>, names: seq<string>)
    requires AllResolve(names, users)
    ensures |RetrieveUsers(users, names)| == |names|
    ensures forall i :: 0 <= i < |names| ==> RetrieveUsers(users, names)[i] == FindUserByUsername(users, names[i]).value.id
  {
    if names != [] {
      assert AllResolve(names[1..], users) by {
        forall i | 0 <= i < |names[1..]| ensures FindUserByUsername(users, names[1..][i]).Some? {
          assert names[1..][i] == names[i + 1];
        }
      }
      RetrieveUsersResolved(users, names[1..]);
    }
  }

  /** The response carrying one saved filter; a projection that throws sends nothing. */
  function SavedFilter(f: Filter, users: seq<User>, tags: seq<Tag>): (r: Response<FilterBody>)
    ensures r.Reply? <==> ConstructFilterResponse(f, users, tags).Some?
    ensures r.Reply? ==> r == Reply(OK, OneFilter(ConstructFilterResponse(f, users, tags).value))
    ensures !r.Reply? ==> r == NoResponse
  {
    match ConstructFilterResponse(f, users, tags)
    case None => NoResponse
    case Some(x) => Reply(OK, OneFilter(x))
  }

  /**
   * `GET /api/filters`: signed-in users only. Without a `name` query, all the
   * session user's filters; with one, `isFilterNameExists` and then that filter.
   */
  function GetFilters(req: Request, users: seq<User>, tags: seq<Tag>, filters: seq<Filter>): (r: Response<FilterBody>)
    ensures req.userId.None? ==> r == Error(Forbidden)
    ensures req.userId.Some? && req.query.name.None? ==>
      var own := FilterCollection.FindAllByUserId(filters, req.userId.value);
      && (r.Reply? <==> forall i :: 0 <= i < |own| ==> FindUserById(users, own[i].creator).Some?)
      && (r.Reply? ==>
            (&& r.status == OK && r.body.FilterList? && |r.body.filters| == |own|
             && forall i :: 0 <= i < |own| ==> Some(r.body.filters[i]) == ConstructFilterResponse(own[i], users, tags)))
      && (!r.Reply? ==> r == NoResponse)
    ensures req.userId.Some? && req.query.name.Some? && req.query.usernames.None? && req.query.tags.None? ==>
      && (req.query.name.value == "" ==> r == Error(BadRequest))
      && (r.Reply? ==>
            (&& r.status == OK && r.body.OneFilter?
             && exists f :: f in filters && f.creator == req.userId.value && f.name == req.query.name.value
                  && Some(r.body.filter) == ConstructFilterResponse(f, users, tags)))
    ensures (req.userId.Some? && req.query.name.Some? && req.query.name.value != ""
             && req.query.usernames.None? && req.query.tags.None?) ==>
      var named := SessionFilterNamed(req, filters, req.query.name.value);
      && (named.None? ==> r == Error(NotFound))
      && (named.Some? ==> r == SavedFilter(named.value, users, tags))
    ensures r.Error? ==> r.status in {Forbidden, BadRequest, NotFound}
  {
    var login := IsUserLoggedIn(req);
    if login.IsFailure() then Stopped(login)
    else if req.query.name.None? then
      var own := FilterCollection.FindAllByUserId(filters, req.userId.value);
      match MapAll(own, (f: Filter) => ConstructFilterResponse(f, users, tags))
      case None => NoResponse
      case Some(list) => Reply(OK, FilterList(list))
    else
      var named := IsFilterNameExists(req, filters);
      if named.IsFailure() then Stopped(named)
      else match FilterCollection.FindOneByUserIdAndName(filters, req.userId.value, req.query.name.value)
        case None => NoResponse
        case Some(f) => SavedFilter(f, users, tags)
  }

  /**
   * A name query given together with a `usernames` or `tags` query skips the
   * name check, so a name with no filter behind it reaches the handler, which
   * then projects a null filter and sends nothing.
   */
  lemma GetFilterUnknownNameWithTags(req: Request, users: seq<User>, tags: seq<Tag>, filters: seq<Filter>)
    requires req.userId.Some? && req.query.name.Some? && req.query.tags.Some?
    requires forall f :: f in filters ==> f.name != req.query.name.value
    ensures GetFilters(req, users, tags, filters) == NoResponse
  {
  }

  /** The validators of `POST /api/filters`, in order. */
  function PostFilterChain(req: Request, users: seq<User>, filters: seq<Filter>): (v: Verdict)
    ensures req.userId.None? ==> v == Respond(Forbidden)
    ensures req.userId.Some? && !IsWord(req.body.name) ==> v == Respond(BadRequest)
    ensures (req.userId.Some? && IsWord(req.body.name) && req.params.filterId.Absent?
      && SessionFilterNamed(req, filters, req.body.name).Some?) ==> v == Respond(Conflict)
    ensures req.params.filterId.Absent? ==>
      (v.Next? <==>
        && req.userId.Some? && IsWord(req.body.name)
        && SessionFilterNamed(req, filters, req.body.name).None?
        && IsValidUsernameList(req, users).Next?
        && FreetMiddleware.IsValidTaglist(req).Next?)
  {
    var signedIn := IsUserLoggedIn(req);
    :- signedIn;
    :- IsValidFilterName(req);
    :- IsFilterNameNotAlreadyInUse(req, filters);
    :- IsValidUsernameList(req, users);
    :- FreetMiddleware.IsValidTaglist(req);
    Next
  }

  /**
   * `POST /api/filters`: after the chain, the body's usernames are resolved,
   * its tag names found or created, and one filter is stored; 200 with that filter.
   */
  method PostFilter(db: Database, req: Request) returns (r: Response<FilterBody>)
    requires db.Valid() && req.params.filterId.Absent?
    modifies db`filters, db`tags, db`nextSerial
    ensures db.Valid()
    ensures var v := PostFilterChain(req, old(db.users), old(db.filters));
      v.IsFailure() ==>
        r == Stopped(v) && db.filters == old(db.filters) && db.tags == old(db.tags) && db.nextSerial == old(db.nextSerial)
    ensures PostFilterChain(req, old(db.users), old(db.filters)).Next? ==>
      var (found, tags, next) := TagCollection.FindOrCreateAll(old(db.tags), old(db.nextSerial), req.body.tags);
      var filter := Filter(ObjectId(next), req.userId.value, req.body.name,
        RetrieveUsers(old(db.users), req.body.usernames), TagCollection.Ids(found));
      && db.tags == tags && db.nextSerial == next + 1
      && db.filters == old(db.filters) + [filter]
      && r == SavedFilter(filter, db.users, db.tags)
  {
    var v := PostFilterChain(req, db.users, db.filters);
    if v.IsFailure() {
      return Stopped(v);
    }
    var userIds := RetrieveUsers(db.users, req.body.usernames);
    var found := TagCollection.FindOrCreateMany(db, req.body.tags);
    var filter := FilterCollection.AddOne(db, req.userId.value, req.body.name, userIds, TagCollection.Ids(found));
    r := SavedFilter(filter, db.users, db.tags);
  }

  /** The validators of `PATCH /api/filters/:filterId?`, in order. */
  function PatchFilterChain(req: Request, users: seq<User>, filters: seq<Filter>): (v: Verdict)
    ensures req.userId.None? ==> v == Respond(Forbidden)
    ensures req.userId.Some? && IsFilterExists(req, filters).IsFailure() ==> v == Respond(NotFound)
    ensures (req.userId.Some? && IsFilterExists(req, filters).Next? && FindUserById(users, FindFilter(filters, req.params.filterId.id).value.creator).Some?
      && !IsSessionUser(req, FindFilter(filters, req.params.filterId.id).value.creator)) ==> v == Respond(Forbidden)
    ensures (req.userId.Some? && IsFilterExists(req, filters).Next? && FindUserById(users, FindFilter(filters, req.params.filterId.id).value.creator).Some?
      && IsSessionUser(req, FindFilter(filters, req.params.filterId.id).value.creator) && !IsWord(req.body.name)) ==> v == Respond(BadRequest)
    ensures (req.userId.Some? && IsFilterExists(req, filters).Next? && FindUserById(users, FindFilter(filters, req.params.filterId.id).value.creator).Some?
      && IsSessionUser(req, FindFilter(filters, req.params.filterId.id).value.creator) && IsWord(req.body.name)
      && req.body.name != FindFilter(filters, req.params.filterId.id).value.name
      && SessionFilterNamed(req, filters, req.body.name).Some?) ==> v == Respond(Conflict)
    ensures v.Next? <==>
      && req.userId.Some? && IsFilterExists(req, filters).Next?
      && FindUserById(users, FindFilter(filters, req.params.filterId.id).value.creator).Some?
      && IsSessionUser(req, FindFilter(filters, req.params.filterId.id).value.creator)
      && IsWord(req.body.name)
      && (|| req.body.name == FindFilter(filters, req.params.filterId.id).value.name
          || SessionFilterNamed(req, filters, req.body.name).None?)
      && IsValidUsernameList(req, users).Next? && FreetMiddleware.IsValidTaglist(req).Next?
  {
    var signedIn := IsUserLoggedIn(req);
    :- signedIn;
    :- IsFilterExists(req, filters);
    :- IsValidFilterModifier(req, filters, users);
    :- IsValidFilterName(req);
    :- IsFilterNameNotAlreadyInUse(req, filters);
    :- IsValidUsernameList(req, users);
    :- FreetMiddleware.IsValidTaglist(req);
    Next
  }

  /**
   * `PATCH /api/filters/:filterId?`: after the chain, the filter gets the body's
   * name, resolved usernames and found-or-created tags; id and creator stay.
   */
  method PatchFilter(db: Database, req: Request) returns (r: Response<FilterBody>)
    requires db.Valid()
    modifies db`filters, db`tags, db`nextSerial
    ensures db.Valid()
    ensures var v := PatchFilterChain(req, old(db.users), old(db.filters));
      v.IsFailure() ==>
        r == Stopped(v) && db.filters == old(db.filters) && db.tags == old(db.tags) && db.nextSerial == old(db.nextSerial)
    ensures PatchFilterChain(req, old(db.users), old(db.filters)).Next? ==>
      var k := FilterIndex(old(db.filters), req.params.filterId.id).value;
      var (found, tags, next) := TagCollection.FindOrCreateAll(old(db.tags), old(db.nextSerial), req.body.tags);
      var filter := Filter(req.params.filterId.id, old(db.filters)[k].creator, req.body.name,
        RetrieveUsers(old(db.users), req.body.usernames), TagCollection.Ids(found));
      && db.tags == tags && db.nextSerial == next
      && db.filters == old(db.filters)[k := filter]
      && r == SavedFilter(filter, db.users, db.tags)
  {
    var v := PatchFilterChain(req, db.users, db.filters);
    if v.IsFailure() {
      return Stopped(v);
    }
    var userIds := RetrieveUsers(db.users, req.body.usernames);
    var found := TagCollection.FindOrCreateMany(db, req.body.tags);
    var filter := FilterCollection.UpdateOne(db, req.params.filterId.id, req.body.name, userIds, TagCollection.Ids(found));
    r := SavedFilter(filter, db.users, db.tags);
  }

  /** The validators of `DELETE /api/filters/:filterId?`, in order. */
  function DeleteFilterChain(req: Request, users: seq<User>, filters: seq<Filter>): (v: Verdict)
    ensures req.userId.None? ==> v == Respond(Forbidden)
    ensures req.userId.Some? && IsFilterExists(req, filters).IsFailure() ==> v == Respond(NotFound)
    ensures v.Next? <==>
      && req.userId.Some? && IsFilterExists(req, filters).Next?
      && FindUserById(users, FindFilter(filters, req.params.filterId.id).value.creator).Some?
      && IsSessionUser(req, FindFilter(filters, req.params.filterId.id).value.creator)
  {
    var signedIn := IsUserLoggedIn(req);
    :- signedIn;
    :- IsFilterExists(req, filters);
    :- IsValidFilterModifier(req, filters, users);
    Next
  }

  /** `DELETE /api/filters/:filterId?`: after the chain, exactly that filter is removed. */
  method DeleteFilter(db: Database, req: Request) returns (r: Response<FilterBody>)
    requires db.Valid()
    modifies db`filters
    ensures db.Valid()
    ensures var v := DeleteFilterChain(req, old(db.users), old(db.filters));
      && (v.IsFailure() ==> r == Stopped(v) && db.filters == old(db.filters))
      && (v.Next? ==>
            (&& r == Reply(OK, Message)
             && forall f :: f in db.filters <==> f in old(db.filters) && f.id != req.params.filterId.id))
  {
    var v := DeleteFilterChain(req, db.users, db.filters);
    if v.IsFailure() {
      return Stopped(v);
    }
    var _ := FilterCollection.DeleteOne(db, req.params.filterId.id);
    r := Reply(OK, Message);
  }

  /** The validators of `GET /api/content` that run before the search handler looks at the query. */
  function SearchChain(req: Request, filters: seq<Filter>): (v: Verdict)
    ensures v.Next? <==> req.userId.Some? && IsFilterNameExists(req, filters).Next?
    ensures req.userId.None? ==> v == Respond(Forbidden)
  {
    var signedIn := IsUserLoggedIn(req);
    :- signedIn;
    :- IsFilterNameExists(req, filters);
    Next
  }

  /** The validators of the parameter path of `GET /api/content`. */
  function SearchParametersChain(req: Request, users: seq<User>): (v: Verdict)
    ensures req.query.usernames.None? || req.query.tags.None? ==> v == Respond(BadRequest)
    ensures v.Next? <==>
      && req.query.usernames.Some? && req.query.tags.Some?
      && AllResolve(ParseList(req.query.usernames.value), users)
      && forall i :: 0 <= i < |ParseList(req.query.tags.value)| ==> IsWord(ParseList(req.query.tags.value)[i])
  {
    var parameters := IsValidParameters(req);
    :- parameters;
    :- IsValidUsernameList(req, users);
    :- FreetMiddleware.IsValidTaglist(req);
    Next
  }

  /**
   * `GET /api/content`. With neither a `usernames` nor a `tags` query, the
   * session user's filter named by the `name` query is run on its populated
   * lists, which leave out users and tags that no longer exist; otherwise both
   * queries are required, split on commas, the usernames resolved and the tag
   * names found or created, and the freets by those authors or with those tags
   * are returned, newest first.
   */
  method Search(db: Database, req: Request) returns (r: Response<seq<Freet>>)
    requires db.Valid()
    modifies db`tags, db`nextSerial
    ensures db.Valid()
    ensures var v := SearchChain(req, db.filters);
      v.IsFailure() ==> r == Stopped(v) && db.tags == old(db.tags) && db.nextSerial == old(db.nextSerial)
    ensures SearchChain(req, db.filters).Next? && req.query.usernames.None? && req.query.tags.None? ==>
      && db.tags == old(db.tags) && db.nextSerial == old(db.nextSerial)
      && var f := SessionFilterNamed(req, db.filters, req.query.name.value).value;
         r == Reply(OK, FreetCollection.Filter(db.freets,
                PopulatedUserIds(f.usernames, db.users), PopulatedTagIds(f.tags, db.tags)))
    ensures SearchChain(req, db.filters).Next? && (req.query.usernames.Some? || req.query.tags.Some?) ==>
      var v := SearchParametersChain(req, db.users);
      && (v.IsFailure() ==> r == Stopped(v) && db.tags == old(db.tags) && db.nextSerial == old(db.nextSerial))
      && (v.Next? ==>
            var (found, tags, next) := TagCollection.FindOrCreateAll(old(db.tags), old(db.nextSerial), ParseList(req.query.tags.value));
            && db.tags == tags && db.nextSerial == next
            && r == Reply(OK, FreetCollection.Filter(db.freets,
                 RetrieveUsers(db.users, ParseList(req.query.usernames.value)), TagCollection.Ids(found))))
  {
    var v := SearchChain(req, db.filters);
    if v.IsFailure() {
      return Stopped(v);
    }
    if req.query.usernames.None? && req.query.tags.None? {
      var filter := FilterCollection.FindOneByUserIdAndName(db.filters, req.userId.value, req.query.name.value);
      if filter.None? {
        return NoResponse;
      }
      var userIds := PopulatedUserIds(filter.value.usernames, db.users);
      var tagIds := PopulatedTagIds(filter.value.tags, db.tags);
      r := Reply(OK, FreetCollection.Filter(db.freets, userIds, tagIds));
      return;
    }
    var w := SearchParametersChain(req, db.users);
    if w.IsFailure() {
      return Stopped(w);
    }
    var usernames := ParseList(req.query.usernames.value);
    var taglist := ParseList(req.query.tags.value);
    var userIds := RetrieveUsers(db.users, usernames);
    var found := TagCollection.FindOrCreateMany(db, taglist);
    r := Reply(OK, FreetCollection.Filter(db.freets, userIds, TagCollection.Ids(found)));
  }

  /** A search that gives only one of `usernames` and `tags` skips the name path and is refused with 400. */
  lemma SearchNeedsBothLists(req: Request, filters: seq<Filter>, users: seq<User>)
    requires req.userId.Some? && (req.query.usernames.Some? != req.query.tags.Some?)
    ensures SearchChain(req, filters).Next?
    ensures SearchParametersChain(req, users) == Respond(BadRequest)
  {
  }
}
