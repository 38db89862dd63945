/**
 * The follow collection: a follower and the user or tag it follows, with
 * `sourceModel` saying which table `following` refers to.
 */
module FollowCollection {

  import opened Common
  import opened Tables
  import opened Store

  /** `FollowCollection.findOne(followId)`. */
  function FindOne(follows: seq<Follow>, followId: ObjectId): (r: Option<Follow>)
    ensures r.Some? ==> r.value in follows && r.value.id == followId
    ensures r.None? <==> forall f :: f in follows ==> f.id != followId
  {
    FindFirst(follows, (f: Follow) => f.id == followId)
  }

  /** `FollowCollection.findAllByFollowerId`: what the user follows. */
  function FindAllByFollowerId(follows: seq<Follow>, id: ObjectId): (r: seq<Follow>)
    ensures forall f :: f in r <==> f in follows && f.follower == id
    ensures multiset(r) <= multiset(follows)
  {
    var p := (f: Follow) => f.follower == id;
    SelectWithin(follows, p);
    Select(follows, p)
  }

  /** `FollowCollection.findAllByFollowingId`: who follows the user or tag. */
  function FindAllByFollowingId(follows: seq<Follow>, id: ObjectId): (r: seq<Follow>)
    ensures forall f :: f in r <==> f in follows && f.following == id
    ensures multiset(r) <= multiset(follows)
  {
    var p := (f: Follow) => f.following == id;
    SelectWithin(follows, p);
    Select(follows, p)
  }

  /** `FollowCollection.findOneByIds`: matches on follower and target only, whatever `sourceModel` says. */
  function FindOneByIds(follows: seq<Follow>, followerId: ObjectId, followingId: ObjectId): (r: Option<Follow>)
    ensures r.Some? ==> r.value in follows && r.value.follower == followerId && r.value.following == followingId
    ensures r.None? <==> forall f :: f in follows ==> !(f.follower == followerId && f.following == followingId)
  {
    FindFirst(follows, (f: Follow) => f.follower == followerId && f.following == followingId)
  }

  /** Whether `findOneByIds` finds a follow does not depend on any follow's `sourceModel`. */
  lemma FindOneByIdsIgnoresSourceModel(follows: seq<Follow>, k: nat, m: SourceModel, followerId: ObjectId, followingId: ObjectId)
    requires k < |follows|
    ensures FindOneByIds(follows[k := follows[k].(sourceModel := m)], followerId, followingId).Some?
      <==> FindOneByIds(follows, followerId, followingId).Some?
  {
    var changed := follows[k := follows[k].(sourceModel := m)];
    var r := FindOneByIds(follows, followerId, followingId);
    if r.Some? {
      var i :| 0 <= i < |follows| && follows[i] == r.value;
      assert changed[i].follower == followerId && changed[i].following == followingId;
      assert changed[i] in changed;
    } else {
      forall f | f in changed ensures !(f.follower == followerId && f.following == followingId) {
        var i :| 0 <= i < |changed| && changed[i] == f;
        assert follows[i] in follows;
      }
    }
  }

  /** `FollowCollection.addOne`. */
  method AddOne(db: Database, followerId: ObjectId, followingId: ObjectId, sourceModel: SourceModel)
    returns (follow: Follow)
    requires db.Valid()
    modifies db`follows, db`nextSerial
    ensures db.Valid()
    ensures follow == Follow(ObjectId(old(db.nextSerial)), followerId, followingId, sourceModel)
    ensures db.follows == old(db.follows) + [follow] && db.nextSerial == old(db.nextSerial) + 1
  {
    var id := db.NewId();
    follow := Follow(id, followerId, followingId, sourceModel);
    WellKeyedAppend(db.follows, follow, FollowKey, id.serial);
    db.follows := db.follows + [follow];
  }

  /** `FollowCollection.deleteOne`: answers true whether or not a follow was removed. */
  method DeleteOne(db: Database, followId: ObjectId) returns (deleted: bool)
    requires db.Valid()
    modifies db`follows
    ensures db.Valid()
    ensures deleted
    ensures db.follows == RemoveFirst(old(db.follows), (f: Follow) => f.id == followId)
    ensures forall f :: f in db.follows <==> f in old(db.follows) && f.id != followId
  {
    var p := (f: Follow) => f.id == followId;
    RemoveFirstByKey(db.follows, p, followId, FollowKey, db.nextSerial);
    WellKeyedRemoveFirst(db.follows, p, FollowKey, db.nextSerial);
    db.follows := RemoveFirst(db.follows, p);
    deleted := true;
  }

  /** `FollowCollection.deleteManyByUserId`: the user's follows, then the follows of the user. */
  method DeleteManyByUserId(db: Database, userId: ObjectId) returns (deleted: bool)
    requires db.Valid()
    modifies db`follows
    ensures db.Valid()
    ensures deleted
    ensures db.follows == Reject(Reject(old(db.follows), (f: Follow) => f.follower == userId), (f: Follow) => f.following == userId)
    ensures forall f :: f in db.follows <==> f in old(db.follows) && f.follower != userId && f.following != userId
  {
    var byFollower := (f: Follow) => f.follower == userId;
    var byFollowing := (f: Follow) => f.following == userId;
    WellKeyedReject(db.follows, byFollower, FollowKey, db.nextSerial);
    db.follows := Reject(db.follows, byFollower);
    WellKeyedReject(db.follows, byFollowing, FollowKey, db.nextSerial);
    db.follows := Reject(db.follows, byFollowing);
    deleted := true;
  }
}
