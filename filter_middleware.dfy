/**
 * The filter validators: the name a request uses, the usernames it lists, the
 * filter named in the route and who may change it, and the search parameters.
 */
module FilterMiddleware {

  import opened Common
  import opened Text
  import opened Store
  import opened Http
  import FilterCollection

  /**
   * `findOneByUserIdAndName(req.session.userId, name)`. Nobody signed in is
   * taken to match no filter.
   */
  function SessionFilterNamed(req: Request, filters: seq<Filter>, name: string): (r: Option<Filter>)
    ensures r.Some? ==> r.value in filters && IsSessionUser(req, r.value.creator) && r.value.name == name
    ensures r.None? <==> forall f :: f in filters ==> !(IsSessionUser(req, f.creator) && f.name == name)
  {
    if req.userId.None? then None else FilterCollection.FindOneByUserIdAndName(filters, req.userId.value, name)
  }

  /**
   * `isFilterNameExists`: passes at once when a `usernames` or `tags` query is
   * given; otherwise 400 for a missing or empty `name` query, and 404 unless the
   * session user has a filter of that name.
   */
  function IsFilterNameExists(req: Request, filters: seq<Filter>): (v: Verdict)
    ensures req.query.usernames.Some? || req.query.tags.Some? ==> v.Next?
    ensures req.query.usernames.None? && req.query.tags.None? ==>
      && (v == Respond(BadRequest) <==> req.query.name.None? || req.query.name.value == "")
      && (v.Next? <==>
            (&& req.query.name.Some? && req.query.name.value != ""
             && exists f :: f in filters && IsSessionUser(req, f.creator) && f.name == req.query.name.value))
    ensures v.Respond? ==> v.status in {BadRequest, NotFound}
    ensures !v.Throw?
  {
    if req.query.usernames.Some? || req.query.tags.Some? then Next
    else if req.query.name.None? || req.query.name.value == "" then Respond(BadRequest)
    else if SessionFilterNamed(req, filters, req.query.name.value).None? then Respond(NotFound)
    else Next
  }

  /**
   * `isFilterNameNotAlreadyInUse`. With a `filterId` parameter (an update) it
   * loads that filter, throwing when there is none, and looks for a clash only
   * when the body renames it; without one (a create) it always looks. A clash is
   * another filter of the session user with the body's name: 409.
   */
  function IsFilterNameNotAlreadyInUse(req: Request, filters: seq<Filter>): (v: Verdict)
    ensures v.Throw? <==>
      !req.params.filterId.Absent? && (req.params.filterId.Malformed? || FindFilter(filters, req.params.filterId.id).None?)
    ensures v.Respond? ==> v == Respond(Conflict)
    ensures req.params.filterId.Absent? ==>
      (v == Respond(Conflict) <==> exists f :: f in filters && IsSessionUser(req, f.creator) && f.name == req.body.name)
    ensures req.params.filterId.WellFormed? && FindFilter(filters, req.params.filterId.id).Some? ==>
      (v == Respond(Conflict) <==>
        && req.body.name != FindFilter(filters, req.params.filterId.id).value.name
        && exists f :: f in filters && IsSessionUser(req, f.creator) && f.name == req.body.name)
  {
    var p := req.params.filterId;
    if !p.Absent? then
      if p.Malformed? then Throw
      else match FindFilter(filters, p.id)
        case None => Throw
        case Some(current) =>
          if req.body.name != current.name && SessionFilterNamed(req, filters, req.body.name).Some? then Respond(Conflict)
          else Next
    else if SessionFilterNamed(req, filters, req.body.name).Some? then Respond(Conflict)
    else Next
  }

  /** Keeping a filter's own name never conflicts, whatever other filters exist. */
  lemma KeepingNameNeverConflicts(req: Request, filters: seq<Filter>)
    requires req.params.filterId.WellFormed?
    requires FindFilter(filters, req.params.filterId.id).Some?
    requires req.body.name == FindFilter(filters, req.params.filterId.id).value.name
    ensures IsFilterNameNotAlreadyInUse(req, filters) == Next
  {
  }

  /** `isValidFilterName`: 400 unless the body's name is a non-empty run of `[A-Za-z0-9_]`. */
  function IsValidFilterName(req: Request): (v: Verdict)
    ensures v.Next? <==> |req.body.name| > 0 && forall i :: 0 <= i < |req.body.name| ==> IsWordChar(req.body.name[i])
    ensures !v.Next? ==> v == Respond(BadRequest)
  {
    if IsWord(req.body.name) then Next else Respond(BadRequest)
  }

  /**
   * The usernames a request carries: the comma-separated `usernames` query when
   * it is given (`''` is the empty list), the body's list otherwise.
   */
  function RequestUsernames(req: Request): (names: seq<string>)
    ensures req.query.usernames == Some("") ==> names == []
    ensures req.query.usernames.Some? && req.query.usernames.value != "" ==> names == Split(req.query.usernames.value, ',')
    ensures req.query.usernames.None? ==> names == req.body.usernames
  {
    if req.query.usernames.Some? then ParseList(req.query.usernames.value) else req.body.usernames
  }

  /** Every username belongs to a stored user (the `users.every(u => u !== null)` test). */
  predicate AllResolve(names: seq<string>, users: seq<User>) {
    forall i :: 0 <= i < |names| ==> FindUserByUsername(users, names[i]).Some?
  }

  /** Some stored user has that username. */
  predicate HasUser(users: seq<User>, name: string) {
    exists u :: u in users && u.username == name
  }

  /** A username resolves exactly when some stored user has it. */
  lemma AllResolveMeansUsersExist(names: seq<string>, users: seq<User>)
    ensures AllResolve(names, users) <==> forall i :: 0 <= i < |names| ==> HasUser(users, names[i])
  {
    forall i | 0 <= i < |names| ensures FindUserByUsername(users, names[i]).Some? <==> HasUser(users, names[i]) {
      if FindUserByUsername(users, names[i]).Some? {
        assert FindUserByUsername(users, names[i]).value in users;
      }
    }
  }

  /** `isValidUsernameList`: 404 iff some listed username has no user. */
  function IsValidUsernameList(req: Request, users: seq<User>): (v: Verdict)
    ensures v.Next? <==> forall i :: 0 <= i < |RequestUsernames(req)| ==> HasUser(users, RequestUsernames(req)[i])
    ensures !v.Next? ==> v == Respond(NotFound)
    ensures req.query.usernames == Some("") ==> v.Next?
  {
    AllResolveMeansUsersExist(RequestUsernames(req), users);
    if AllResolve(RequestUsernames(req), users) then Next else Respond(NotFound)
  }

  /** `isFilterExists`: 404 unless the `filterId` parameter is a valid id of a stored filter. */
  function IsFilterExists(req: Request, filters: seq<Filter>): (v: Verdict)
    ensures v.Next? <==> req.params.filterId.WellFormed? && exists f :: f in filters && f.id == req.params.filterId.id
    ensures !v.Next? ==> v == Respond(NotFound)
  {
    var p := req.params.filterId;
    if p.WellFormed? && FindFilter(filters, p.id).Some? then Next else Respond(NotFound)
  }

  /**
   * `isValidFilterModifier`: loads the filter and its populated creator (a
   * missing one is a null dereference) and answers 403 unless the session user
   * created it.
   */
  function IsValidFilterModifier(req: Request, filters: seq<Filter>, users: seq<User>): (v: Verdict)
    ensures v.Throw? <==>
      (|| !req.params.filterId.WellFormed?
       || FindFilter(filters, req.params.filterId.id).None?
       || FindUserById(users, FindFilter(filters, req.params.filterId.id).value.creator).None?)
    ensures v.Respond? ==> v.status == Forbidden
    ensures !v.Throw? ==> (v.Next? <==> IsSessionUser(req, FindFilter(filters, req.params.filterId.id).value.creator))
  {
    var p := req.params.filterId;
    if !p.WellFormed? then Throw
    else match FindFilter(filters, p.id)
      case None => Throw
      case Some(filter) =>
        match FindUserById(users, filter.creator)
        case None => Throw
        case Some(creator) => if IsSessionUser(req, creator.id) then Next else Respond(Forbidden)
  }

  /** `isValidParameters`: 400 unless both the `usernames` and the `tags` query are given. */
  function IsValidParameters(req: Request): (v: Verdict)
    ensures v.Next? <==> req.query.usernames.Some? && req.query.tags.Some?
    ensures !v.Next? ==> v == Respond(BadRequest)
  {
    if req.query.usernames.None? || req.query.tags.None? then Respond(BadRequest) else Next
  }
}
