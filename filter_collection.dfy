/**
 * The filter collection: a user's saved searches, each a name plus a list of
 * user ids and a list of tag ids.
 */
module FilterCollection {

  import opened Common
  import opened Tables
  import opened Store

  /** `FilterCollection.findAllByUserId`: the user's filters, in storage order. */
  function FindAllByUserId(filters: seq<Filter>, userId: ObjectId): (r: seq<Filter>)
    ensures forall f :: f in r <==> f in filters && f.creator == userId
    ensures multiset(r) <= multiset(filters)
  {
    var p := (f: Filter) => f.creator == userId;
    SelectWithin(filters, p);
    Select(filters, p)
  }

  /** `FilterCollection.findOneByUserIdAndName`. */
  function FindOneByUserIdAndName(filters: seq<Filter>, userId: ObjectId, name: string): (r: Option<Filter>)
    ensures r.Some? ==> r.value in filters && r.value.creator == userId && r.value.name == name
    ensures r.None? <==> forall f :: f in filters ==> !(f.creator == userId && f.name == name)
  {
    FindFirst(filters, (f: Filter) => f.creator == userId && f.name == name)
  }

  /** What `removeUserIdFromFilters` saves for one filter: the first occurrence of the user spliced out. */
  function WithoutUser(f: Filter, userId: ObjectId): Filter {
    f.(usernames := SpliceOut(f.usernames, userId))
  }

  /**
   * Pruning a user touches only `usernames`, and only one occurrence of that user;
   * a user listed at most once is gone afterwards.
   */
  lemma WithoutUserEffect(f: Filter, userId: ObjectId)
    ensures var g := WithoutUser(f, userId);
      && g.id == f.id && g.creator == f.creator && g.name == f.name && g.tags == f.tags
      && multiset(g.usernames) == multiset(f.usernames) - multiset{userId}
      && (multiset(f.usernames)[userId] <= 1 ==> userId !in g.usernames)
  {
    if multiset(f.usernames)[userId] <= 1 {
      SpliceOutRemovesSingle(f.usernames, userId);
    }
  }

  /** `FilterCollection.addOne`. */
  method AddOne(db: Database, userId: ObjectId, name: string, usernames: seq<ObjectId>, tags: seq<ObjectId>)
    returns (filter: Filter)
    requires db.Valid()
    modifies db`filters, db`nextSerial
    ensures db.Valid()
    ensures filter == Filter(ObjectId(old(db.nextSerial)), userId, name, usernames, tags)
    ensures db.filters == old(db.filters) + [filter] && db.nextSerial == old(db.nextSerial) + 1
  {
    var id := db.NewId();
    filter := Filter(id, userId, name, usernames, tags);
    WellKeyedAppend(db.filters, filter, FilterKey, id.serial);
    db.filters := db.filters + [filter];
  }

  /** `FilterCollection.updateOne`: new name and lists; id and creator stay. */
  method UpdateOne(db: Database, filterId: ObjectId, name: string, usernames: seq<ObjectId>, tags: seq<ObjectId>)
    returns (filter: Filter)
    requires db.Valid() && FilterIndex(db.filters, filterId).Some?
    modifies db`filters
    ensures db.Valid()
    ensures var k := FilterIndex(old(db.filters), filterId).value;
      && filter == Filter(filterId, old(db.filters)[k].creator, name, usernames, tags)
      && db.filters == old(db.filters)[k := filter]
  {
    var k := FilterIndex(db.filters, filterId).value;
    filter := db.filters[k];
    filter := filter.(name := name, usernames := usernames, tags := tags);
    WellKeyedReplace(db.filters, k, filter, FilterKey, db.nextSerial);
    db.filters := db.filters[k := filter];
  }

  /** `FilterCollection.deleteOne`: answers true whether or not a filter was removed. */
  method DeleteOne(db: Database, filterId: ObjectId) returns (deleted: bool)
    requires db.Valid()
    modifies db`filters
    ensures db.Valid()
    ensures deleted
    ensures db.filters == RemoveFirst(old(db.filters), (f: Filter) => f.id == filterId)
    ensures forall f :: f in db.filters <==> f in old(db.filters) && f.id != filterId
  {
    var p := (f: Filter) => f.id == filterId;
    RemoveFirstByKey(db.filters, p, filterId, FilterKey, db.nextSerial);
    WellKeyedRemoveFirst(db.filters, p, FilterKey, db.nextSerial);
    db.filters := RemoveFirst(db.filters, p);
    deleted := true;
  }

  /** `FilterCollection.deleteAllByUserId`: `deleteMany({creator})`. */
  method DeleteAllByUserId(db: Database, userId: ObjectId) returns (deleted: bool)
    requires db.Valid()
    modifies db`filters
    ensures db.Valid()
    ensures deleted
    ensures db.filters == Reject(old(db.filters), (f: Filter) => f.creator == userId)
    ensures multiset(db.filters) + multiset(FindAllByUserId(old(db.filters), userId)) == multiset(old(db.filters))
  {
    var p := (f: Filter) => f.creator == userId;
    SelectRejectPartition(db.filters, p);
    WellKeyedReject(db.filters, p, FilterKey, db.nextSerial);
    db.filters := Reject(db.filters, p);
    deleted := true;
  }

  /**
   * `FilterCollection.removeUserIdFromFilters`: every filter loaded, the user spliced out
   * of its `usernames`, and the filter saved back through `updateOne`.
   */
  method RemoveUserIdFromFilters(db: Database, userId: ObjectId) returns (updated: seq<Filter>)
    requires db.Valid()
    modifies db`filters
    ensures db.Valid()
    ensures |db.filters| == |old(db.filters)| && updated == db.filters
    ensures forall i :: 0 <= i < |db.filters| ==> db.filters[i] == WithoutUser(old(db.filters)[i], userId)
  {
    ghost var prune := (f: Filter) => WithoutUser(f, userId);
    updated := [];
    var i := 0;
    while i < |db.filters|
      invariant 0 <= i <= |old(db.filters)|
      invariant db.Valid()
      invariant db.filters == UpdatedBefore(old(db.filters), prune, i)
      invariant updated == db.filters[..i]
    {
      var filter := db.filters[i];
      var usernames := filter.usernames;
      var index := IndexOf(usernames, userId);
      if index != -1 {
        usernames := RemoveAt(usernames, index);
      }
      assert usernames == SpliceOut(filter.usernames, userId);
      FilterIndexOfDistinct(db.filters, i, db.nextSerial);
      UpdatedBeforeStep(old(db.filters), prune, i);
      UpdateTakeOneMore(db.filters, i, WithoutUser(filter, userId));
      var saved := UpdateOne(db, filter.id, filter.name, usernames, filter.tags);
      updated := updated + [saved];
      i := i + 1;
    }
    TakeAll(db.filters);
  }
}
