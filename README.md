# Fritter backend core in Dafny

This project models the server logic of Fritter, a small social network.
Users post short texts called freets. A freet can carry tags, and a separate
taglist can also be attached to it. Users can follow other users or tags.
They can save named filters, which combine a list of authors with a list of
tags, and run content searches with them. They can fact-check freets, by
voting a freet credible or not and by attaching reference links to it.

The backend is an Express application over MongoDB. This model replaces the
database with an in-memory `Store.Database` object. Each collection becomes
one sequence field: tags, freets, follows, filters, votes, reference links and
taglists. The object also holds a read-only user table and a serial counter
that issues fresh object ids.

The model has four layers, mirroring the source:

- **Collections** (`*_collection.dfy`). Operations that change the store are
  methods with `modifies` clauses, specified against pure functions
  (`TagCollection.FindOrCreate`, `FreetCollection.WithVote`,
  `FreetCollection.WithoutLink`, `FreetCollection.Filter`, …). Lemmas prove
  the properties the source relies on:
  - find-or-create is idempotent and never duplicates a tag name;
  - the two vote lists stay disjoint;
  - link removal and link lookup disagree when two links share an id;
  - deletes leave every other record unchanged.
- **Validators** (`*_middleware.dfy`). Each middleware is a pure function that
  returns a `Verdict`: `Next` (the middleware calls `next()`),
  `Respond(status)`, or `Throw` (the middleware dereferences a missing
  document). The one validator that writes to the store, `isNotInFollowing`,
  is a method.
- **Routes** (`*_router.dfy`). The validators of a route are chained with
  `:-`, so the first one that does not pass decides the answer. `GET` routes
  are functions. Routes that change the store are methods. Their contracts
  give the answer and the new store both when the chain stops and when the
  handler runs.
- **Response projections** (`*_util.dfy`). Each projection turns a stored
  record into the record the API returns. It is `None` exactly when the
  source would dereference a missing populated document.

Several quirks of the source are reproduced on purpose, each stated by a
contract or a lemma:

- The vote guards read the vote lists embedded in the freet, but the vote
  routes write the separate Vote table (`FactcheckRouter.PostVote`).
- `removeLink` removes the last link with the given id, while `findLink`
  returns the first (`FreetCollection.RemoveLinkLeavesFoundLink`).
- `deleteLinksByUserId` passes an issuer id where a link id is expected
  (`FreetCollection.PruneLinksNoMatch`).
- `DELETE /api/credibility/links/:linkId` can never reach its handler
  (`FactcheckRouter.DeleteLinkUnreachable`).
- `GET /api/tags/:freetId` calls a collection method that does not exist
  (`TaglistRouter.GetTaglist`).
- A taglist `tags` query replaces the body's list in the validator but not
  in the handler (`TaglistRouter.EmptyTagsQueryAdmitsAnyBody`).

## Model

| member | source | states |
|---|---|---|
| Common.Stopped | server/factcheck/middleware.ts:58-63 | a validator that answers ends the request with exactly its status, and one that throws ends it with no response |
| Common.MapAll | server/follow/router.ts:48 | `.map` of a projection that may throw: a result iff every element projects, then one result per element, in order |
| Common.IdStringRoundTrip | server/filter/util.ts:28 | the string form of an object id parses back to the same id, so `toString` loses nothing |
| Text.TrimEmptyIffAllSpace | server/freet/middleware.ts:27-32 | trimmed content is empty exactly when every character is JavaScript whitespace |
| Text.Utf16Length | server/freet/middleware.ts:34-39 | `content.length` counts UTF-16 code units: between one and two per character |
| Text.ParseList | server/freet/middleware.ts:64-70 | the query `''` gives the empty list; otherwise the comma-separated parts, which join back to the query |
| Text.JoinSplit | server/filter/router.ts:211-212 | splitting on a separator and joining again gives back the original string |
| Text.SplitJoin | server/filter/router.ts:211-212 | joining comma-free parts and splitting again gives back the parts |
| Text.UrlPatternSimplified | server/factcheck/middleware.ts:40-50 | the URL rule holds iff some `http://` or `https://` is followed by two characters of `[A-Za-z0-9./-]` |
| Text.IsValidUrlInside | server/factcheck/middleware.ts:41-42 | the URL match is unanchored: text around a valid link keeps it valid |
| Text.WordListRoundTrip | server/freet/middleware.ts:65-66 | a non-empty list of `^\w+$` names, joined with `,`, is a non-empty query that `split(',')` turns back into exactly that list |
| FreetMiddleware.JoinedTagQueryAccepted | server/freet/middleware.ts:64-82 | a tags query made by joining valid tag names is read as those names and `isValidTaglist` lets it through |
| Store.PopulateUsersResolved | server/filter/util.ts:30 | when every id resolves, the populated user list has the same length and order as the ids |
| Store.PopulateTagsResolved | server/filter/util.ts:31 | when every id resolves, the populated tag list has the same length and order as the ids |
| Store.PopulatedUsernames | server/filter/util.ts:30 | at most one name per listed id; when every id resolves, exactly the listed users' usernames, in order |
| Store.PopulatedTagNames | server/filter/util.ts:31 | at most one name per listed id; when every id resolves, exactly the listed tags' names, in order |
| Store.PopulatedUserIds | server/filter/collection.ts:91 | the ids of a populated user list: an id is kept iff it is listed and a user has it, and every listed id is kept, in order, when all resolve |
| Store.PopulatedTagIds | server/filter/collection.ts:91 | the ids of a populated tag list: an id is kept iff it is listed and a tag has it, and every listed id is kept, in order, when all resolve |
| TagCollection.FindOrCreate | server/tag/collection.ts:20-32 | the tag returned carries the name; an existing tag is returned with the registry unchanged; otherwise exactly one tag with a fresh id is appended; names stay unique |
| TagCollection.FindOrCreateIdempotent | server/tag/collection.ts:20-32 | a second call with the same name returns the same tag and changes nothing |
| TagCollection.FindOrCreateAll | server/tag/collection.ts:40-48 | one tag per name, in order; the registry only grows, by at most one tag per name |
| TagCollection.FindOrCreateAllNames | server/tag/collection.ts:40-48 | result i carries name i and is the registry's tag for that name |
| TagCollection.FindOrCreateAllUnique | server/tag/collection.ts:40-48 | run sequentially, the registry never gains two tags with the same name |
| TagCollection.FindOrCreateAllConsistent | server/tag/collection.ts:40-48 | repeated names map to the same tag |
| TagCollection.FindOrCreateAllKnown | server/tag/collection.ts:21 | when every name already has a tag, nothing is created |
| TagCollection.FindOrCreateOne | server/tag/collection.ts:20-32 | the method's tag and new registry are those of `FindOrCreate` |
| TagCollection.FindOrCreateMany | server/tag/collection.ts:40-48 | the method's tags and new registry are those of `FindOrCreateAll` |
| FreetCollection.IsVoteExists | server/freet/collection.ts:175-178 | true iff the issuer is in the freet's upvotes or downvotes |
| FreetCollection.SomeSameString | server/freet/collection.ts:177 | comparing string forms of ids is membership |
| FreetCollection.AddVoteKeepsWellFormed | server/freet/collection.ts:135-145 | voting only when no vote exists keeps each user in at most one list, and records the vote |
| FreetCollection.AddVoteTouchesOneList | server/freet/collection.ts:135-145 | `addVote` adds the issuer to the list `credible` selects; the other list and every other field stay |
| FreetCollection.RemoveVoteUndoesAddVote | server/freet/collection.ts:154-166 | removing a vote just added to a freet the user had not voted on restores the freet |
| FreetCollection.RemoveVoteClears | server/freet/collection.ts:157-162 | when the user occurs at most once in each list, splicing out one occurrence per list leaves the user with no vote |
| FreetCollection.RemoveVoteKeepsWellFormed | server/freet/collection.ts:154-166 | on well-formed lists (each user at most once across both) the user has no vote afterwards and the lists stay well formed |
| FreetCollection.FindLinkIn | server/freet/collection.ts:249-259 | the link returned has that id and is in the list; `None` iff no link has the id |
| FreetCollection.LastLinkIndex | server/freet/collection.ts:228-235 | the index the loop ends with is the last link with that id, or -1 when there is none |
| FreetCollection.RemoveLinkEffect | server/freet/collection.ts:224-240 | with no matching link the freet is unchanged; otherwise exactly one link with that id goes and all other fields stay |
| FreetCollection.AddLinkRoundTrip | server/freet/collection.ts:204-215 | a link added under a fresh id is the one `findLink` returns, and `removeLink` takes it out again |
| FreetCollection.RemoveLinkLeavesFoundLink | server/freet/collection.ts:228-256 | when two links share an id, the link `findLink` returns is still there after `removeLink` |
| FreetCollection.PruneLinksNoMatch | server/freet/collection.ts:267-280 | unless a link's own id equals the user id, `deleteLinksByUserId` leaves the freet unchanged |
| FreetCollection.PruneLinksOnlyMatching | server/freet/collection.ts:267-280 | only links whose id is the user id can disappear, and every other field stays |
| FreetCollection.InsertByDate | server/freet/collection.ts:124 | inserting into a newest-first list keeps it sorted and adds exactly that freet |
| FreetCollection.SortByDate | server/freet/collection.ts:124 | the sorted result is newest first and a permutation of the input |
| FreetCollection.Filter | server/freet/collection.ts:118-125 | exactly the freets whose author is listed or that share a listed tag, newest first, each as often as stored; empty lists give no freets |
| FreetCollection.FilterOnce | server/freet/collection.ts:118-125 | with distinct ids, each freet appears in the result at most once |
| FreetCollection.AddOne | server/freet/collection.ts:25-42 | a new freet with both dates equal to now, empty vote and link lists, and the found-or-created tag ids in input order |
| FreetCollection.UpdateOne | server/freet/collection.ts:81-89 | content, tags and `dateModified` change; author, creation date, votes and links stay |
| FreetCollection.DeleteOne | server/freet/collection.ts:97-100 | removes the freet with that id, keeps every other freet and the unique-id invariant, and answers true |
| FreetCollection.AddVote | server/freet/collection.ts:135-145 | the stored freet becomes `WithVote` of itself; no other freet changes |
| FreetCollection.RemoveVote | server/freet/collection.ts:154-166 | the stored freet loses the first occurrence of the issuer in each list; no other freet changes |
| FreetCollection.SpliceVoteLists | server/freet/collection.ts:157-162 | the loop over both vote lists leaves each list with the first occurrence of the issuer spliced out |
| FreetCollection.DeleteVotesByUserId | server/freet/collection.ts:186-194 | every freet becomes `WithoutVote` of itself for the user |
| FreetCollection.AddLink | server/freet/collection.ts:204-215 | exactly one link with a fresh id, the issuer and the URL is appended to that freet's links |
| FreetCollection.RemoveLink | server/freet/collection.ts:224-240 | the last link with that id is spliced out of that freet; no other freet changes |
| FreetCollection.FindLink | server/freet/collection.ts:249-259 | the loop returns the first link with that id, or nothing |
| FreetCollection.DeleteLinksByUserId | server/freet/collection.ts:267-280 | every freet becomes `PruneLinks` of itself over the links it had when loaded |
| FreetCollection.PruneFreetLinks | server/freet/collection.ts:272-276 | one freet's turn: only that freet changes, and it becomes `PruneLinks` of itself over the links loaded at the start |
| FilterCollection.FindAllByUserId | server/filter/collection.ts:79-81 | exactly the filters the user created |
| FilterCollection.FindOneByUserIdAndName | server/filter/collection.ts:90-92 | a filter with that creator and name, or `None` iff there is none |
| FilterCollection.WithoutUserEffect | server/filter/collection.ts:111-125 | pruning a user removes one occurrence from `usernames`; id, creator, name and tags stay |
| FilterCollection.AddOne | server/filter/collection.ts:23-32 | one filter with a fresh id and exactly the given creator, name, usernames and tags is appended |
| FilterCollection.UpdateOne | server/filter/collection.ts:53-60 | name, usernames and tags are replaced; id and creator stay |
| FilterCollection.DeleteOne | server/filter/collection.ts:68-71 | the filter with that id is removed, all others stay, and the answer is true |
| FilterCollection.DeleteAllByUserId | server/filter/collection.ts:100-103 | exactly the user's filters are removed; the others stay |
| FilterCollection.RemoveUserIdFromFilters | server/filter/collection.ts:111-125 | every filter is pruned of the user; none is deleted and the count is unchanged |
| FollowCollection.FindOne | server/follow/collection.ts:37-39 | the follow with that id, or `None` iff there is none |
| FollowCollection.FindAllByFollowerId | server/follow/collection.ts:47-49 | exactly the follows whose follower is the id |
| FollowCollection.FindAllByFollowingId | server/follow/collection.ts:57-59 | exactly the follows whose target is the id |
| FollowCollection.FindOneByIds | server/follow/collection.ts:68-70 | a follow with that follower and target, or `None` iff there is none |
| FollowCollection.FindOneByIdsIgnoresSourceModel | server/follow/collection.ts:68-70 | changing a follow's `sourceModel` does not change whether it is found |
| FollowCollection.AddOne | server/follow/collection.ts:21-29 | one follow with a fresh id and the given follower, target and source model is appended |
| FollowCollection.DeleteOne | server/follow/collection.ts:78-81 | the follow with that id is removed; all others stay |
| FollowCollection.DeleteManyByUserId | server/follow/collection.ts:89-93 | every follow the user makes or receives is removed, the others stay, and the answer is true |
| VoteCollection.FindAllByFreetId | server/factcheck/collection.ts:48-50 | exactly the votes on that freet |
| VoteCollection.FindOneByFreetIdAndIssuerId | server/factcheck/collection.ts:59-61 | a vote with that freet and issuer, or `None` iff there is none |
| VoteCollection.AddOne | server/factcheck/collection.ts:20-28 | one vote is appended, without checking for an earlier vote by the same issuer |
| VoteCollection.DeleteOne | server/factcheck/collection.ts:37-40 | at most one matching vote is removed, and the answer is true |
| VoteCollection.DeleteManyByFreetId | server/factcheck/collection.ts:69-72 | exactly the votes on that freet are removed |
| VoteCollection.DeleteManyByUserId | server/factcheck/collection.ts:80-83 | exactly the votes by that user are removed |
| ReferenceLinkCollection.FindOne | server/factcheck/collection.ts:111-113 | the record with that id, or `None` iff there is none |
| ReferenceLinkCollection.FindAllByFreetId | server/factcheck/collection.ts:132-134 | exactly the records of that freet |
| ReferenceLinkCollection.AddOne | server/factcheck/collection.ts:95-103 | one record with a fresh id and the given freet, issuer and link is appended |
| ReferenceLinkCollection.DeleteOne | server/factcheck/collection.ts:121-124 | the record with that id is removed; the others stay |
| ReferenceLinkCollection.DeleteManyByFreetId | server/factcheck/collection.ts:142-145 | exactly the records of that freet are removed |
| ReferenceLinkCollection.DeleteManyByUserId | server/factcheck/collection.ts:153-156 | exactly the records issued by that user are removed |
| TaglistCollection.FindOne | server/taglist/collection.ts:20-22 | the taglist of that freet, or `None` iff there is none |
| TaglistCollection.FilterByTag | server/taglist/collection.ts:71-73 | exactly the taglists sharing a tag with the list; an empty list gives none |
| TaglistCollection.AddOne | server/taglist/collection.ts:31-38 | a taglist with the freet and tag ids is appended; a freet that had none now finds it, and one taglist per freet is kept |
| TaglistCollection.UpdateOne | server/taglist/collection.ts:47-52 | only `tags` changes; id and freet stay |
| TaglistCollection.DeleteOne | server/taglist/collection.ts:60-63 | the freet's taglist is removed; with one taglist per freet, all others stay |
| Http.IsUserLoggedIn | server/filter/router.ts:80 | passes iff a user is signed in, else 403 |
| FreetMiddleware.IsFreetExists | server/freet/middleware.ts:8-19 | 404 unless the id is well formed and some freet has it |
| FreetMiddleware.IsValidFreetContent | server/freet/middleware.ts:25-42 | 400 iff the trimmed content is empty; otherwise 413 iff the raw UTF-16 length exceeds 140; passes iff neither |
| FreetMiddleware.SpacesAreEmptyNotLong | server/freet/middleware.ts:27-39 | 141 spaces get 400, not 413 |
| FreetMiddleware.IsValidFreetModifier | server/freet/middleware.ts:47-58 | throws on a missing freet or author; otherwise passes iff the session user wrote the freet, else 403 |
| FreetMiddleware.RequestTags | server/freet/middleware.ts:64-70 | the query wins over the body; the query `''` gives the empty list; otherwise it is split on commas |
| FreetMiddleware.IsValidTaglist | server/freet/middleware.ts:63-83 | 400 iff some name is not `^\w+$`; an empty query passes |
| FreetMiddleware.EmptyTagEntryRefused | server/freet/middleware.ts:72-82 | an empty entry in the query, as in `a,,b`, is refused |
| FilterMiddleware.SessionFilterNamed | server/filter/middleware.ts:16-17 | the session user's filter with that name, or `None` iff there is none |
| FilterMiddleware.IsFilterNameExists | server/filter/middleware.ts:10-32 | passes at once with a usernames or tags query; otherwise 400 for a missing or empty name, passes iff the session user has such a filter, else 404 |
| FilterMiddleware.IsFilterNameNotAlreadyInUse | server/filter/middleware.ts:37-60 | on create, 409 iff the session user has a filter with that name; on update, 409 iff the name changes to one of theirs; a missing filter throws |
| FilterMiddleware.KeepingNameNeverConflicts | server/filter/middleware.ts:38-48 | an update that keeps the name always passes |
| FilterMiddleware.IsValidFilterName | server/filter/middleware.ts:65-75 | passes iff the name is non-empty and all `[A-Za-z0-9_]`, else 400 |
| FilterMiddleware.RequestUsernames | server/filter/middleware.ts:81-93 | the query wins over the body; `''` gives the empty list |
| FilterMiddleware.IsValidUsernameList | server/filter/middleware.ts:80-103 | 404 iff some listed username has no user |
| FilterMiddleware.IsFilterExists | server/filter/middleware.ts:108-119 | 404 unless the id is well formed and some filter has it |
| FilterMiddleware.IsValidFilterModifier | server/filter/middleware.ts:124-134 | throws on a missing filter or creator; otherwise passes iff the session user created it, else 403 |
| FilterMiddleware.IsValidParameters | server/filter/middleware.ts:139-148 | passes iff both the usernames and the tags query are given, else 400 |
| FollowMiddleware.IsValidType | server/follow/middleware.ts:10-19 | passes iff the type is exactly `User` or `Tag`, else 404 |
| FollowMiddleware.IsValidQuery | server/follow/middleware.ts:24-37 | passes iff exactly one of `followingOf` and `followersOf` is given and it is not empty, else 400 |
| FollowMiddleware.SourceUsername | server/follow/middleware.ts:75 | the name looked up is `followingOf`, then `followersOf`, then the body's source |
| FollowMiddleware.IsValidSource | server/follow/middleware.ts:73-95 | with no type or type `User`, passes iff a user has that name; with type `Tag`, iff the source is `^\w+$`; any other type passes; failure is 404 |
| FollowMiddleware.IsNotSelf | server/follow/middleware.ts:116-128 | only for type `User`: throws on a missing user, else 409 iff the user is the session user |
| FollowMiddleware.AlreadyFollows | server/follow/middleware.ts:104-106 | true iff some follow has the session user as follower and the target, whatever its source model |
| FollowMiddleware.IsNotInFollowing | server/follow/middleware.ts:100-111 | 409 iff the session user already follows the source; for a tag, the tag is found or created even when the answer is 409 |
| FollowMiddleware.IsFollowExists | server/follow/middleware.ts:42-53 | 404 unless the id is well formed and some follow has it |
| FollowMiddleware.IsValidFollowModifier | server/follow/middleware.ts:58-68 | throws on a missing follow or follower; otherwise passes iff the session user is the follower, else 403 |
| FactcheckMiddleware.SessionVoteExists | server/factcheck/middleware.ts:10 | `isVoteExists` for the session user on the freet's embedded lists; `None` when it would throw |
| FactcheckMiddleware.HasNotAlreadyVoted | server/factcheck/middleware.ts:8-19 | a malformed id passes; 409 iff the id is well formed and the session user is in the freet's vote lists |
| FactcheckMiddleware.HasAlreadyVoted | server/factcheck/middleware.ts:24-35 | 404 unless the id is well formed and the session user is in the freet's vote lists |
| FactcheckMiddleware.ExactlyOneVoteGuardPasses | server/factcheck/middleware.ts:8-35 | for a signed-in user and a stored freet, exactly one of the two vote guards passes |
| FactcheckMiddleware.IsValidUrl | server/factcheck/middleware.ts:40-50 | passes iff some scheme is followed by two URL characters, else 413 |
| FactcheckMiddleware.UrlMatchIsUnanchored | server/factcheck/middleware.ts:41-42 | a link that passes still passes with any text around it |
| FactcheckMiddleware.IsReferenceLinkExists | server/factcheck/middleware.ts:55-66 | 404 unless both ids are well formed; throws on a missing freet; passes iff the freet's embedded links contain that id |
| FactcheckMiddleware.IsValidReferenceLinkModifier | server/factcheck/middleware.ts:71-82 | throws on a missing freet or link; otherwise passes iff the session user issued the link, else 403 |
| TaglistMiddleware.IsTaglistExists | server/taglist/middleware.ts:8-19 | 404 unless the id is well formed and that freet has a taglist |
| TaglistMiddleware.NoTaglistExists | server/taglist/middleware.ts:24-35 | 409 iff the id is well formed and that freet has a taglist; a malformed id passes |
| TaglistMiddleware.ExactlyOnePresenceCheckPasses | server/taglist/middleware.ts:8-35 | for a well-formed id exactly one of the two presence checks passes |
| TaglistMiddleware.IsValidTaglist | server/taglist/middleware.ts:40-60 | the same rule as the freet validator: the query wins, `''` passes, 400 iff some name is not `^\w+$` |
| FilterUtil.ConstructFilterResponse | server/filter/util.ts:20-33 | the id parses back to the filter's id; creator becomes a username; the name passes through; usernames and tags keep length and order when all resolve |
| FollowUtil.FollowingName | server/follow/util.ts:28 | the target's tag name for a tag follow, its username for a user follow |
| FollowUtil.ConstructFollowResponse | server/follow/util.ts:18-30 | the id parses back; the follower becomes a username; the target is named by its kind; the source model passes through |
| FactcheckUtil.ConstructVoteResponse | server/factcheck/util.ts:19-34 | both ids parse back; the issuer id is replaced by the username; `credible` passes through |
| FactcheckUtil.ConstructReferenceLinkResponse | server/factcheck/util.ts:51-66 | both ids parse back; the issuer id is replaced by the username; the link passes through |
| TaglistUtil.ConstructTaglistResponse | server/taglist/util.ts:18-30 | both ids parse back; the tags become their names, in order, when all resolve |
| FilterRouter.RetrieveUsers | server/filter/router.ts:88-89 | at most one id per name, and each id belongs to a stored user |
| FilterRouter.RetrieveUsersResolved | server/filter/router.ts:88-89 | when every username resolves, the retrieved ids match them one for one |
| FilterRouter.GetFilters | server/filter/router.ts:35-61 | 403 when signed out; without a name, all the session user's filters, projected; with a name alone, 400 for an empty one, 404 when the user has no filter of that name, and otherwise that filter projected |
| FilterRouter.GetFilterUnknownNameWithTags | server/filter/router.ts:52-60 | a name query next to a tags query skips the name check, and an unknown name then sends nothing |
| FilterRouter.SavedFilter | server/filter/router.ts:94-97 | 200 with the projected filter iff the projection succeeds, otherwise no response |
| FilterRouter.PostFilterChain | server/filter/router.ts:79-85 | 403, then 400 for a bad name, then 409 for a name in use; passes iff all five checks do |
| FilterRouter.PostFilter | server/filter/router.ts:77-99 | a stopped chain changes nothing; otherwise the tags are found or created and one filter with the resolved users is stored, answered with 200 |
| FilterRouter.PatchFilterChain | server/filter/router.ts:118-126 | 403, then 404, then 403 for a non-creator, then 400 for a bad name, then 409 for renaming onto another of the user's filter names; passes iff all seven checks pass (keeping the name never conflicts) |
| FilterRouter.PatchFilter | server/filter/router.ts:116-139 | a stopped chain changes nothing; otherwise that filter gets the new name, users and tags, keeping its id and creator |
| FilterRouter.DeleteFilterChain | server/filter/router.ts:152-156 | passes iff signed in, the filter exists and the session user created it |
| FilterRouter.DeleteFilter | server/filter/router.ts:150-163 | a stopped chain changes nothing; otherwise exactly that filter is removed |
| FilterRouter.SearchChain | server/filter/router.ts:188-191 | passes iff signed in and `isFilterNameExists` passes |
| FilterRouter.SearchParametersChain | server/filter/router.ts:205-209 | 400 unless both lists are given; passes iff every username resolves and every tag name is `^\w+$` |
| FilterRouter.Search | server/filter/router.ts:186-223 | with neither list, runs the saved filter on the ids of its populated user and tag lists and changes nothing; otherwise splits both lists, finds or creates the tags and returns `FreetCollection.Filter` of the resolved ids |
| FilterRouter.SearchNeedsBothLists | server/filter/router.ts:193-206 | giving only one list skips the name path and ends in 400 |
| FollowRouter.Listing | server/follow/router.ts:48-49 | every follow of the listing projected, in order, or nothing if one projection throws |
| FollowRouter.GetFollows | server/follow/router.ts:32-51 | 400 for a bad query before any lookup; 404 iff no user has the name; `followingOf` lists that user's follows, `followersOf` the follows of that user |
| FollowRouter.FollowingListingIsOwn | server/follow/router.ts:40-42 | every entry of a `followingOf` listing comes from a follow by that user |
| FollowRouter.PostFollowChecks | server/follow/router.ts:67-71 | 403, then 404 for a bad type; passes iff signed in and the source is a user other than oneself or a well-formed tag name |
| FollowRouter.SelfFollowRefused | server/follow/router.ts:67-73 | following oneself by name gets 409 at `isNotSelf` |
| FollowRouter.CreatedFollow | server/follow/router.ts:79-82 | 201 with the projected follow iff the projection succeeds, otherwise no response |
| FollowRouter.PostFollow | server/follow/router.ts:65-84 | a stopped chain changes nothing; otherwise 409 for an existing follow, else one follow with the source model of the type is stored and answered with 201 |
| FollowRouter.DeleteFollowChain | server/follow/router.ts:98-102 | passes iff signed in, the follow exists and the session user is its follower |
| FollowRouter.DeleteFollow | server/follow/router.ts:96-109 | a stopped chain changes nothing; otherwise exactly that follow is removed |
| FactcheckRouter.GetVotes | server/factcheck/router.ts:19-29 | 404 unless the freet exists; otherwise exactly that freet's Vote records, projected |
| FactcheckRouter.GetVotesOnlyThatFreet | server/factcheck/router.ts:25-26 | every vote listed comes from a stored vote on that freet |
| FactcheckRouter.GetLinks | server/factcheck/router.ts:94-104 | 404 unless the freet exists; otherwise exactly that freet's ReferenceLink records, projected |
| FactcheckRouter.PostVoteChain | server/factcheck/router.ts:44-48 | 403, then 404; passes iff the session user is in neither of the freet's embedded vote lists |
| FactcheckRouter.PostVote | server/factcheck/router.ts:42-58 | a stopped chain changes nothing; otherwise one Vote record is appended and the freets stay, so the same request passes the guard again |
| FactcheckRouter.DeleteVoteChain | server/factcheck/router.ts:71-75 | 403, then 404; passes iff the session user is in one of the freet's embedded vote lists |
| FactcheckRouter.VoteRoutesExclusive | server/factcheck/router.ts:42-84 | for a signed-in user and a stored freet, exactly one of the vote chains passes |
| FactcheckRouter.DeleteVote | server/factcheck/router.ts:69-84 | a stopped chain changes nothing; otherwise the first Vote record by the user on the freet is removed |
| FactcheckRouter.PostLinkChain | server/factcheck/router.ts:119-123 | 403, then 404, then 413; passes iff the link matches the URL rule |
| FactcheckRouter.PostLink | server/factcheck/router.ts:117-133 | a stopped chain changes nothing; otherwise one ReferenceLink record is appended and answered with 201 |
| FactcheckRouter.DeleteLinkChain | server/factcheck/router.ts:146-150 | 403, then 404 without a well-formed freet id; passing needs the session user to have issued the link |
| FactcheckRouter.DeleteLinkUnreachable | server/factcheck/router.ts:144-150 | the route has no freet id parameter, so the answer is always 403 or 404 |
| FactcheckRouter.DeleteLink | server/factcheck/router.ts:144-158 | a stopped chain changes nothing; otherwise the record with that id is removed |
| TaglistRouter.GetTaglist | server/taglist/router.ts:21-31 | 404 unless the freet exists; otherwise the missing collection method leaves the request without an answer |
| TaglistRouter.AuthorChain | server/taglist/router.ts:49-51 | 403, then 404; passes iff the session user wrote the stored freet |
| TaglistRouter.SavedTaglist | server/taglist/router.ts:60-63 | 200 with the projected taglist iff the projection succeeds, otherwise no response |
| TaglistRouter.PostTaglistChain | server/taglist/router.ts:48-54 | the author checks, then 409 if a taglist exists, then the tag rule |
| TaglistRouter.EmptyTagsQueryAdmitsAnyBody | server/taglist/router.ts:53-56 | an empty tags query lets any body list through, even an empty name |
| TaglistRouter.PostTaglist | server/taglist/router.ts:46-65 | a stopped chain changes nothing; otherwise the body's tags are found or created and one taglist is stored, keeping one taglist per freet |
| TaglistRouter.DeleteTaglistChain | server/taglist/router.ts:80-85 | the author checks, then 404 unless a taglist exists |
| TaglistRouter.PostAndDeleteExclusive | server/taglist/router.ts:46-92 | for the author with valid tags, exactly one of attaching and removing passes its checks |
| TaglistRouter.DeleteTaglist | server/taglist/router.ts:78-92 | a stopped chain changes nothing; otherwise the freet's taglist is removed and, with one per freet, none is left |
| TaglistRouter.PatchTaglistChain | server/taglist/router.ts:109-115 | the author checks, then 404 unless a taglist exists, then the tag rule |
| TaglistRouter.PatchTaglist | server/taglist/router.ts:107-125 | a stopped chain changes nothing; otherwise only the taglist's tags are replaced by the found-or-created ones |

## Left out

- The user module is not part of this model. Sessions, `isUserLoggedIn` and
  `UserCollection` are inputs: an optional session user id and a read-only
  user table. `FilterRouter.RetrieveUsers` assumes that `retrieveUsers` skips
  names with no user.
- Store.FindUserByUsername: matches usernames exactly. Fritter's user lookup
  by username compares case-insensitively, so in the model `ALICE` does not find the user
  `alice`. The same holds for everything that looks users up by name:
  `FilterMiddleware.IsValidUsernameList`, `FollowMiddleware.IsValidSource`,
  `FollowMiddleware.IsNotSelf` and `FilterRouter.RetrieveUsers`.
- Mongoose is replaced by the in-memory store. The model leaves out
  `populate`, `toObject` and `save`. `populate` becomes a lookup, and a
  reference that no longer resolves is dropped from a populated list.
- `Types.ObjectId.isValid` becomes the three cases of a route parameter: absent,
  malformed or well formed. The 24-digit zero-padded form of an id is not
  modelled; an id's string form is its serial in lowercase hexadecimal.
- The source compares link ids and issuer ids with `===`. The model compares
  ids by value. In the source the comparison is never true: `findLink` gets the
  route's `linkId` as a string and compares it with an `ObjectId`, and
  `deleteLinksByUserId` and `removeLink` compare two distinct `ObjectId`
  objects. The members below therefore find links that the source never finds.
- FactcheckMiddleware.IsReferenceLinkExists: in the source it answers 404 for
  every request with well-formed ids and an existing freet, because `findLink`
  never matches.
- FactcheckMiddleware.IsValidReferenceLinkModifier: in the source it always
  throws, because `findLink` returns null.
- FreetCollection.FindLink: in the source it always returns null.
- FreetCollection.RemoveLink: in the source it never removes a link.
- FreetCollection.DeleteLinksByUserId: in the source it never removes a link,
  because `link.issuerId === userId` never holds.
- `Promise.all` in `findOrCreateMany`, `deleteVotesByUserId`,
  `deleteLinksByUserId` and `removeUserIdFromFilters` runs its steps one after
  another. Concurrent interleavings, such as two requests creating the same
  tag, are not modelled.
- The members below require the document they load to exist. In the source a
  missing document is dereferenced as null and throws a `TypeError`; that path
  is not modelled. Every route that calls them checks for the document first.
- FreetCollection.UpdateOne: requires the freet to exist. In the source a
  missing freet throws only after the tags were found or created, and those
  tags are kept.
- FreetCollection.AddVote: requires the freet to exist; a missing one throws.
- FreetCollection.RemoveVote: requires the freet to exist; a missing one throws.
- FreetCollection.AddLink: requires the freet to exist; a missing one throws.
- FreetCollection.RemoveLink: requires the freet to exist; a missing one throws.
- FreetCollection.FindLink: requires the freet to exist; a missing one throws.
- FilterCollection.UpdateOne: requires the filter to exist; a missing one throws.
- TaglistCollection.UpdateOne: requires the taglist to exist; a missing one
  throws.
- The clock is a parameter (`now`).
- The order among freets with equal `dateModified` is not fixed by the
  database. The model sorts stably.
- An absent body field is not modelled as `undefined`. In the source a
  missing string field makes `.trim()` throw a `TypeError`, and a missing
  list makes `for…of` throw; the model gives such a request an empty string,
  `false` for `credible`, or an empty list instead, so those throws are not
  modelled.
- Response message texts are left out; a response carries its status and data.
- A handler that throws after writing to the store ends the request with
  `NoResponse`. The write is kept.
- Regular expressions and `String.trim` are written as character predicates.
  `\s` is the JavaScript whitespace set of `Text.IsJsSpace`.
- `constructFreetResponse` and the freet router are not part of this model.
- `FreetCollection.findOne`, `findAll`, `findAllByUsername` and `deleteMany`
  are not part of this model.
- `FilterCollection.findOne` is not part of this model.
- Routes with a route parameter require what Express guarantees for that path.
  `FilterRouter.PostFilter` requires that no `filterId` is present.
