/**
 * The documents of the backend (the fields of each Mongoose schema) and the
 * database that holds one table per collection. The collections' static
 * methods work on this one shared database.
 */
module Store {

  import opened Common
  import opened Tables

  /** A user as the user module stores it; only the fields the core reads. */
  datatype User = User(id: ObjectId, username: string)

  datatype Tag = Tag(id: ObjectId, tag: string)

  /** A reference link embedded in a freet (the link schema). */
  datatype Link = Link(id: ObjectId, issuerId: ObjectId, link: string)

  /** Dates are readings of an integer clock. */
  datatype Freet = Freet(
    id: ObjectId,
    authorId: ObjectId,
    dateCreated: int,
    content: string,
    dateModified: int,
    tags: seq<ObjectId>,
    upvotes: seq<ObjectId>,
    downvotes: seq<ObjectId>,
    links: seq<Link>)

  /** The `enum: ['User', 'Tag']` of a follow's `sourceModel`: which table `following` refers to. */
  datatype SourceModel = SourceUser | SourceTag

  datatype Follow = Follow(id: ObjectId, follower: ObjectId, following: ObjectId, sourceModel: SourceModel)

  datatype Filter = Filter(id: ObjectId, creator: ObjectId, name: string, usernames: seq<ObjectId>, tags: seq<ObjectId>)

  datatype Vote = Vote(id: ObjectId, freetId: ObjectId, issuerId: ObjectId, credible: bool)

  datatype ReferenceLink = ReferenceLink(id: ObjectId, freetId: ObjectId, issuerId: ObjectId, link: string)

  datatype Taglist = Taglist(id: ObjectId, freetId: ObjectId, tags: seq<ObjectId>)

  // The `_id` of each kind of document, the key of its table's unique index.
  function TagKey(t: Tag): ObjectId { t.id }
  function FreetKey(f: Freet): ObjectId { f.id }
  function FollowKey(f: Follow): ObjectId { f.id }
  function FilterKey(f: Filter): ObjectId { f.id }
  function VoteKey(v: Vote): ObjectId { v.id }
  function ReferenceLinkKey(l: ReferenceLink): ObjectId { l.id }
  function TaglistKey(t: Taglist): ObjectId { t.id }

  /** The database: one table per collection, plus the ObjectId generator. */
  class Database {
    /** The user collection; the user module is not part of this model, so nothing here writes it. */
    var users: seq<User>
    var tags: seq<Tag>
    var freets: seq<Freet>
    var follows: seq<Follow>
    var filters: seq<Filter>
    var votes: seq<Vote>
    var refLinks: seq<ReferenceLink>
    var taglists: seq<Taglist>
    /** Serial of the next ObjectId to hand out. */
    var nextSerial: nat

    /** Every table's `_id` index is sound and the generator is ahead of every id handed out. */
    ghost predicate Valid()
      reads this
    {
      && WellKeyed(tags, TagKey, nextSerial)
      && WellKeyed(freets, FreetKey, nextSerial)
      && WellKeyed(follows, FollowKey, nextSerial)
      && WellKeyed(filters, FilterKey, nextSerial)
      && WellKeyed(votes, VoteKey, nextSerial)
      && WellKeyed(refLinks, ReferenceLinkKey, nextSerial)
      && WellKeyed(taglists, TaglistKey, nextSerial)
    }

    constructor (users: seq<User>)
      ensures Valid()
      ensures this.users == users
      ensures tags == [] && freets == [] && follows == [] && filters == []
      ensures votes == [] && refLinks == [] && taglists == []
    {
      this.users := users;
      tags, freets, follows, filters := [], [], [], [];
      votes, refLinks, taglists := [], [], [];
      nextSerial := 0;
    }

    /** A fresh ObjectId, as the driver assigns one to a new document. */
    method NewId() returns (id: ObjectId)
      modifies this`nextSerial
      ensures id == ObjectId(old(nextSerial)) && nextSerial == old(nextSerial) + 1
      ensures old(Valid()) ==> Valid()
    {
      id := ObjectId(nextSerial);
      nextSerial := nextSerial + 1;
    }
  }

  // Lookups every module shares.

  /** `UserCollection.findOneByUsername`. */
  function FindUserByUsername(users: seq<User>, username: string): (r: Option<User>)
    ensures r.Some? ==> r.value in users && r.value.username == username
    ensures r.None? <==> forall u :: u in users ==> u.username != username
  {
    FindFirst(users, (u: User) => u.username == username)
  }

  /** Populating a user reference. */
  function FindUserById(users: seq<User>, id: ObjectId): (r: Option<User>)
    ensures r.Some? ==> r.value in users && r.value.id == id
    ensures r.None? <==> forall u :: u in users ==> u.id != id
  {
    FindFirst(users, (u: User) => u.id == id)
  }

  /** Populating a tag reference. */
  function FindTagById(tags: seq<Tag>, id: ObjectId): (r: Option<Tag>)
    ensures r.Some? ==> r.value in tags && r.value.id == id
    ensures r.None? <==> forall t :: t in tags ==> t.id != id
  {
    FindFirst(tags, (t: Tag) => t.id == id)
  }

  /**
   * Populating an array of user references: the users found, in order; a
   * reference to a user that no longer exists is dropped.
   */
  function PopulateUsers(ids: seq<ObjectId>, users: seq<User>): (r: seq<User>)
    ensures |r| <= |ids|
    ensures forall u :: u in r ==> u in users && u.id in ids
  {
    LookUpAll(ids, (id: ObjectId) => FindUserById(users, id))
  }

  /** When every reference resolves, populating keeps length and order. */
  lemma PopulateUsersResolved(ids: seq<ObjectId>, users: seq<User>)
    ensures (forall i :: 0 <= i < |ids| ==> FindUserById(users, ids[i]).Some?) ==>
      && |PopulateUsers(ids, users)| == |ids|
      && forall i :: 0 <= i < |ids| ==> PopulateUsers(ids, users)[i] == FindUserById(users, ids[i]).value
  {
    if forall i :: 0 <= i < |ids| ==> FindUserById(users, ids[i]).Some? {
      LookUpAllFound(ids, (id: ObjectId) => FindUserById(users, id));
    }
  }

  /** Populating an array of tag references, as `PopulateUsers` does for users. */
  function PopulateTags(ids: seq<ObjectId>, tags: seq<Tag>): (r: seq<Tag>)
    ensures |r| <= |ids|
    ensures forall t :: t in r ==> t in tags && t.id in ids
  {
    LookUpAll(ids, (id: ObjectId) => FindTagById(tags, id))
  }

  lemma PopulateTagsResolved(ids: seq<ObjectId>, tags: seq<Tag>)
    ensures (forall i :: 0 <= i < |ids| ==> FindTagById(tags, ids[i]).Some?) ==>
      && |PopulateTags(ids, tags)| == |ids|
      && forall i :: 0 <= i < |ids| ==> PopulateTags(ids, tags)[i] == FindTagById(tags, ids[i]).value
  {
    if forall i :: 0 <= i < |ids| ==> FindTagById(tags, ids[i]).Some? {
      LookUpAllFound(ids, (id: ObjectId) => FindTagById(tags, id));
    }
  }

  /**
   * The ids of a populated user list, which is what a query given the populated
   * documents matches on: exactly the references that still resolve, and all of
   * them, in order, when none dangles.
   */
  function PopulatedUserIds(ids: seq<ObjectId>, users: seq<User>): (r: seq<ObjectId>)
    ensures |r| <= |ids|
    ensures forall x :: x in r <==> x in ids && FindUserById(users, x).Some?
    ensures (forall i :: 0 <= i < |ids| ==> FindUserById(users, ids[i]).Some?) ==> r == ids
  {
    var look := (id: ObjectId) => FindUserById(users, id);
    var p := PopulateUsers(ids, users);
    var r := seq(|p|, i requires 0 <= i < |p| => p[i].id);
    forall x | x in ids && FindUserById(users, x).Some?
      ensures x in r
    {
      var k :| 0 <= k < |ids| && ids[k] == x;
      LookUpAllComplete(ids, look, k);
      var j :| 0 <= j < |p| && p[j] == look(ids[k]).value;
      assert r[j] == x;
    }
    forall x | x in r
      ensures x in ids && FindUserById(users, x).Some?
    {
      var j :| 0 <= j < |r| && r[j] == x;
      assert p[j] in p;
    }
    PopulateUsersResolved(ids, users);
    r
  }

  /** The ids of a populated tag list, as `PopulatedUserIds` is for users. */
  function PopulatedTagIds(ids: seq<ObjectId>, tags: seq<Tag>): (r: seq<ObjectId>)
    ensures |r| <= |ids|
    ensures forall x :: x in r <==> x in ids && FindTagById(tags, x).Some?
    ensures (forall i :: 0 <= i < |ids| ==> FindTagById(tags, ids[i]).Some?) ==> r == ids
  {
    var look := (id: ObjectId) => FindTagById(tags, id);
    var p := PopulateTags(ids, tags);
    var r := seq(|p|, i requires 0 <= i < |p| => p[i].id);
    forall x | x in ids && FindTagById(tags, x).Some?
      ensures x in r
    {
      var k :| 0 <= k < |ids| && ids[k] == x;
      LookUpAllComplete(ids, look, k);
      var j :| 0 <= j < |p| && p[j] == look(ids[k]).value;
      assert r[j] == x;
    }
    forall x | x in r
      ensures x in ids && FindTagById(tags, x).Some?
    {
      var j :| 0 <= j < |r| && r[j] == x;
      assert p[j] in p;
    }
    PopulateTagsResolved(ids, tags);
    r
  }

  /** `users.map(u => u.username)`. */
  function Usernames(users: seq<User>): (r: seq<string>)
    ensures |r| == |users| && forall i :: 0 <= i < |users| ==> r[i] == users[i].username
  {
    seq(|users|, i requires 0 <= i < |users| => users[i].username)
  }

  /** `tags.map(t => t.tag)`. */
  function TagNames(tags: seq<Tag>): (r: seq<string>)
    ensures |r| == |tags| && forall i :: 0 <= i < |tags| ==> r[i] == tags[i].tag
  {
    seq(|tags|, i requires 0 <= i < |tags| => tags[i].tag)
  }

  /** `populate` then `.map(u => u.username)`: the names of the listed users that still exist. */
  function PopulatedUsernames(ids: seq<ObjectId>, users: seq<User>): (r: seq<string>)
    ensures |r| <= |ids|
    ensures (forall i :: 0 <= i < |ids| ==> FindUserById(users, ids[i]).Some?) ==>
      && |r| == |ids|
      && forall i :: 0 <= i < |ids| ==> r[i] == FindUserById(users, ids[i]).value.username
  {
    PopulateUsersResolved(ids, users);
    Usernames(PopulateUsers(ids, users))
  }

  /** `populate` then `.map(t => t.tag)`: the names of the listed tags that still exist. */
  function PopulatedTagNames(ids: seq<ObjectId>, tags: seq<Tag>): (r: seq<string>)
    ensures |r| <= |ids|
    ensures (forall i :: 0 <= i < |ids| ==> FindTagById(tags, ids[i]).Some?) ==>
      && |r| == |ids|
      && forall i :: 0 <= i < |ids| ==> r[i] == FindTagById(tags, ids[i]).value.tag
  {
    PopulateTagsResolved(ids, tags);
    TagNames(PopulateTags(ids, tags))
  }

  /** Position of the freet with that id (`FreetModel.findOne({_id})`). */
  function FreetIndex(freets: seq<Freet>, id: ObjectId): (r: Option<nat>)
    ensures r.Some? ==> r.value < |freets| && freets[r.value].id == id
    ensures r.None? <==> forall f :: f in freets ==> f.id != id
  {
    FirstIndex(freets, (f: Freet) => f.id == id)
  }

  /** `FreetCollection.findOne(freetId)`. */
  function FindFreet(freets: seq<Freet>, id: ObjectId): (r: Option<Freet>)
    ensures r.Some? ==> r.value in freets && r.value.id == id
    ensures r.None? <==> forall f :: f in freets ==> f.id != id
  {
    var k := FreetIndex(freets, id);
    if k.Some? then Some(freets[k.value]) else None
  }

  /** In a table whose ids are distinct, the document at position `k` is the one found by its id. */
  lemma FreetIndexOfDistinct(freets: seq<Freet>, k: nat, next: nat)
    requires WellKeyed(freets, FreetKey, next) && k < |freets|
    ensures FreetIndex(freets, freets[k].id) == Some(k)
  {
  }

  /** Position of the filter with that id (`FilterModel.findOne({_id})`). */
  function FilterIndex(filters: seq<Filter>, id: ObjectId): (r: Option<nat>)
    ensures r.Some? ==> r.value < |filters| && filters[r.value].id == id
    ensures r.None? <==> forall f :: f in filters ==> f.id != id
  {
    FirstIndex(filters, (f: Filter) => f.id == id)
  }

  /** `FilterCollection.findOne(filterId)`. */
  function FindFilter(filters: seq<Filter>, id: ObjectId): (r: Option<Filter>)
    ensures r.Some? ==> r.value in filters && r.value.id == id
    ensures r.None? <==> forall f :: f in filters ==> f.id != id
  {
    var k := FilterIndex(filters, id);
    if k.Some? then Some(filters[k.value]) else None
  }

  lemma FilterIndexOfDistinct(filters: seq<Filter>, k: nat, next: nat)
    requires WellKeyed(filters, FilterKey, next) && k < |filters|
    ensures FilterIndex(filters, filters[k].id) == Some(k)
  {
  }
}
