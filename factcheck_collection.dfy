/**
 * The fact-check collections: credibility votes and reference links, each a
 * record of its own that points at a freet and at the user who issued it.
 */
module VoteCollection {

  import opened Common
  import opened Tables
  import opened Store

  /** `VoteCollection.findAllByFreetId`. */
  function FindAllByFreetId(votes: seq<Vote>, freetId: ObjectId): (r: seq<Vote>)
    ensures forall v :: v in r <==> v in votes && v.freetId == freetId
    ensures multiset(r) <= multiset(votes)
  {
    var p := (v: Vote) => v.freetId == freetId;
    SelectWithin(votes, p);
    Select(votes, p)
  }

  /** `VoteCollection.findOneByFreetIdAndIssuerId`. */
  function FindOneByFreetIdAndIssuerId(votes: seq<Vote>, freetId: ObjectId, issuerId: ObjectId): (r: Option<Vote>)
    ensures r.Some? ==> r.value in votes && r.value.freetId == freetId && r.value.issuerId == issuerId
    ensures r.None? <==> forall v :: v in votes ==> !(v.freetId == freetId && v.issuerId == issuerId)
  {
    FindFirst(votes, (v: Vote) => v.freetId == freetId && v.issuerId == issuerId)
  }

  /** `VoteCollection.addOne`: no check for an earlier vote by the same user on the same freet. */
  method AddOne(db: Database, freetId: ObjectId, issuerId: ObjectId, credible: bool) returns (vote: Vote)
    requires db.Valid()
    modifies db`votes, db`nextSerial
    ensures db.Valid()
    ensures vote == Vote(ObjectId(old(db.nextSerial)), freetId, issuerId, credible)
    ensures db.votes == old(db.votes) + [vote] && db.nextSerial == old(db.nextSerial) + 1
  {
    var id := db.NewId();
    vote := Vote(id, freetId, issuerId, credible);
    WellKeyedAppend(db.votes, vote, VoteKey, id.serial);
    db.votes := db.votes + [vote];
  }

  /** `VoteCollection.deleteOne`: removes the first vote of that user on that freet, if any; answers true. */
  method DeleteOne(db: Database, freetId: ObjectId, issuerId: ObjectId) returns (deleted: bool)
    requires db.Valid()
    modifies db`votes
    ensures db.Valid()
    ensures deleted
    ensures db.votes == RemoveFirst(old(db.votes), (v: Vote) => v.freetId == freetId && v.issuerId == issuerId)
    ensures |old(db.votes)| - 1 <= |db.votes| <= |old(db.votes)|
    ensures FindOneByFreetIdAndIssuerId(old(db.votes), freetId, issuerId).None? ==> db.votes == old(db.votes)
  {
    var p := (v: Vote) => v.freetId == freetId && v.issuerId == issuerId;
    WellKeyedRemoveFirst(db.votes, p, VoteKey, db.nextSerial);
    db.votes := RemoveFirst(db.votes, p);
    deleted := true;
  }

  /** `VoteCollection.deleteManyByFreetId`. */
  method DeleteManyByFreetId(db: Database, freetId: ObjectId) returns (deleted: bool)
    requires db.Valid()
    modifies db`votes
    ensures db.Valid()
    ensures deleted
    ensures db.votes == Reject(old(db.votes), (v: Vote) => v.freetId == freetId)
    ensures forall v :: v in db.votes <==> v in old(db.votes) && v.freetId != freetId
  {
    var p := (v: Vote) => v.freetId == freetId;
    WellKeyedReject(db.votes, p, VoteKey, db.nextSerial);
    db.votes := Reject(db.votes, p);
    deleted := true;
  }

  /** `VoteCollection.deleteManyByUserId`. */
  method DeleteManyByUserId(db: Database, userId: ObjectId) returns (deleted: bool)
    requires db.Valid()
    modifies db`votes
    ensures db.Valid()
    ensures deleted
    ensures db.votes == Reject(old(db.votes), (v: Vote) => v.issuerId == userId)
    ensures forall v :: v in db.votes <==> v in old(db.votes) && v.issuerId != userId
  {
    var p := (v: Vote) => v.issuerId == userId;
    WellKeyedReject(db.votes, p, VoteKey, db.nextSerial);
    db.votes := Reject(db.votes, p);
    deleted := true;
  }
}

module ReferenceLinkCollection {

  import opened Common
  import opened Tables
  import opened Store

  /** `ReferenceLinkCollection.findOne(linkId)`. */
  function FindOne(refLinks: seq<ReferenceLink>, linkId: ObjectId): (r: Option<ReferenceLink>)
    ensures r.Some? ==> r.value in refLinks && r.value.id == linkId
    ensures r.None? <==> forall l :: l in refLinks ==> l.id != linkId
  {
    FindFirst(refLinks, (l: ReferenceLink) => l.id == linkId)
  }

  /** `ReferenceLinkCollection.findAllByFreetId`. */
  function FindAllByFreetId(refLinks: seq<ReferenceLink>, freetId: ObjectId): (r: seq<ReferenceLink>)
    ensures forall l :: l in r <==> l in refLinks && l.freetId == freetId
    ensures multiset(r) <= multiset(refLinks)
  {
    var p := (l: ReferenceLink) => l.freetId == freetId;
    SelectWithin(refLinks, p);
    Select(refLinks, p)
  }

  /** `ReferenceLinkCollection.addOne`. */
  method AddOne(db: Database, freetId: ObjectId, issuerId: ObjectId, link: string) returns (refLink: ReferenceLink)
    requires db.Valid()
    modifies db`refLinks, db`nextSerial
    ensures db.Valid()
    ensures refLink == ReferenceLink(ObjectId(old(db.nextSerial)), freetId, issuerId, link)
    ensures db.refLinks == old(db.refLinks) + [refLink] && db.nextSerial == old(db.nextSerial) + 1
  {
    var id := db.NewId();
    refLink := ReferenceLink(id, freetId, issuerId, link);
    WellKeyedAppend(db.refLinks, refLink, ReferenceLinkKey, id.serial);
    db.refLinks := db.refLinks + [refLink];
  }

  /** `ReferenceLinkCollection.deleteOne`: answers true whether or not a record was removed. */
  method DeleteOne(db: Database, refLinkId: ObjectId) returns (deleted: bool)
    requires db.Valid()
    modifies db`refLinks
    ensures db.Valid()
    ensures deleted
    ensures db.refLinks == RemoveFirst(old(db.refLinks), (l: ReferenceLink) => l.id == refLinkId)
    ensures forall l :: l in db.refLinks <==> l in old(db.refLinks) && l.id != refLinkId
  {
    var p := (l: ReferenceLink) => l.id == refLinkId;
    RemoveFirstByKey(db.refLinks, p, refLinkId, ReferenceLinkKey, db.nextSerial);
    WellKeyedRemoveFirst(db.refLinks, p, ReferenceLinkKey, db.nextSerial);
    db.refLinks := RemoveFirst(db.refLinks, p);
    deleted := true;
  }

  /** `ReferenceLinkCollection.deleteManyByFreetId`. */
  method DeleteManyByFreetId(db: Database, freetId: ObjectId) returns (deleted: bool)
    requires db.Valid()
    modifies db`refLinks
    ensures db.Valid()
    ensures deleted
    ensures db.refLinks == Reject(old(db.refLinks), (l: ReferenceLink) => l.freetId == freetId)
    ensures forall l :: l in db.refLinks <==> l in old(db.refLinks) && l.freetId != freetId
  {
    var p := (l: ReferenceLink) => l.freetId == freetId;
    WellKeyedReject(db.refLinks, p, ReferenceLinkKey, db.nextSerial);
    db.refLinks := Reject(db.refLinks, p);
    deleted := true;
  }

  /** `ReferenceLinkCollection.deleteManyByUserId`. */
  method DeleteManyByUserId(db: Database, userId: ObjectId) returns (deleted: bool)
    requires db.Valid()
    modifies db`refLinks
    ensures db.Valid()
    ensures deleted
    ensures db.refLinks == Reject(old(db.refLinks), (l: ReferenceLink) => l.issuerId == userId)
    ensures forall l :: l in db.refLinks <==> l in old(db.refLinks) && l.issuerId != userId
  {
    var p := (l: ReferenceLink) => l.issuerId == userId;
    WellKeyedReject(db.refLinks, p, ReferenceLinkKey, db.nextSerial);
    db.refLinks := Reject(db.refLinks, p);
    deleted := true;
  }
}
