/**
 * The taglist collection: the tags attached to a freet, keyed by the freet's id.
 */
module TaglistCollection {

  import opened Common
  import opened Tables
  import opened Store

  /** Position of the first taglist of that freet. */
  function TaglistIndex(taglists: seq<Taglist>, freetId: ObjectId): (r: Option<nat>)
    ensures r.Some? ==> r.value < |taglists| && taglists[r.value].freetId == freetId
    ensures r.None? <==> forall t :: t in taglists ==> t.freetId != freetId
  {
    FirstIndex(taglists, (t: Taglist) => t.freetId == freetId)
  }

  /** `TaglistCollection.findOne(freetId)`: the freet's taglist, or null. */
  function FindOne(taglists: seq<Taglist>, freetId: ObjectId): (r: Option<Taglist>)
    ensures r.Some? ==> r.value in taglists && r.value.freetId == freetId
    ensures r.None? <==> forall t :: t in taglists ==> t.freetId != freetId
  {
    var k := TaglistIndex(taglists, freetId);
    if k.Some? then Some(taglists[k.value]) else None
  }

  /** `{tags: {$in: tags}}`: the taglist shares a tag with the list. */
  predicate SharesTag(t: Taglist, tags: seq<ObjectId>) {
    exists x :: x in t.tags && x in tags
  }

  /** `TaglistCollection.filterByTag`. */
  function FilterByTag(taglists: seq<Taglist>, tags: seq<ObjectId>): (r: seq<Taglist>)
    ensures forall t :: t in r <==> t in taglists && SharesTag(t, tags)
    ensures multiset(r) <= multiset(taglists)
    ensures tags == [] ==> r == []
  {
    var p := (t: Taglist) => SharesTag(t, tags);
    SelectWithin(taglists, p);
    if tags == [] then
      SelectNone(taglists, p);
      Select(taglists, p)
    else Select(taglists, p)
  }

  /** At most one taglist per freet: what the route chains keep (`noTaglistExists` guards every insert). */
  predicate OnePerFreet(taglists: seq<Taglist>) {
    forall i, j :: 0 <= i < j < |taglists| ==> taglists[i].freetId != taglists[j].freetId
  }

  /** `TaglistCollection.addOne`. */
  method AddOne(db: Database, freetId: ObjectId, tags: seq<ObjectId>) returns (taglist: Taglist)
    requires db.Valid()
    modifies db`taglists, db`nextSerial
    ensures db.Valid()
    ensures taglist == Taglist(ObjectId(old(db.nextSerial)), freetId, tags)
    ensures db.taglists == old(db.taglists) + [taglist] && db.nextSerial == old(db.nextSerial) + 1
    ensures FindOne(old(db.taglists), freetId).None? ==> FindOne(db.taglists, freetId) == Some(taglist)
    ensures OnePerFreet(old(db.taglists)) && FindOne(old(db.taglists), freetId).None? ==> OnePerFreet(db.taglists)
  {
    var id := db.NewId();
    taglist := Taglist(id, freetId, tags);
    WellKeyedAppend(db.taglists, taglist, TaglistKey, id.serial);
    db.taglists := db.taglists + [taglist];
  }

  /** `TaglistCollection.updateOne`: only `tags` changes. */
  method UpdateOne(db: Database, freetId: ObjectId, tags: seq<ObjectId>) returns (taglist: Taglist)
    requires db.Valid() && FindOne(db.taglists, freetId).Some?
    modifies db`taglists
    ensures db.Valid()
    ensures var k := TaglistIndex(old(db.taglists), freetId).value;
      && taglist == old(db.taglists)[k].(tags := tags)
      && taglist.id == old(db.taglists)[k].id && taglist.freetId == freetId
      && db.taglists == old(db.taglists)[k := taglist]
  {
    var k := TaglistIndex(db.taglists, freetId).value;
    taglist := db.taglists[k];
    taglist := taglist.(tags := tags);
    WellKeyedReplace(db.taglists, k, taglist, TaglistKey, db.nextSerial);
    db.taglists := db.taglists[k := taglist];
  }

  /** `TaglistCollection.deleteOne`: removes the freet's (first) taglist; answers true. */
  method DeleteOne(db: Database, freetId: ObjectId) returns (deleted: bool)
    requires db.Valid()
    modifies db`taglists
    ensures db.Valid()
    ensures deleted
    ensures db.taglists == RemoveFirst(old(db.taglists), (t: Taglist) => t.freetId == freetId)
    ensures OnePerFreet(old(db.taglists)) ==>
      forall t :: t in db.taglists <==> t in old(db.taglists) && t.freetId != freetId
  {
    var p := (t: Taglist) => t.freetId == freetId;
    WellKeyedRemoveFirst(db.taglists, p, TaglistKey, db.nextSerial);
    db.taglists := RemoveFirst(db.taglists, p);
    deleted := true;
  }
}
