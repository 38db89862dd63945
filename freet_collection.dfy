/**
 * The freet collection: creating and editing freets, the content query behind
 * filters, and the engagement arrays embedded in each freet (the up/down vote
 * lists and the reference links).
 */
module FreetCollection {

  import opened Common
  import opened Tables
  import opened Store
  import TagCollection

  // ---------------------------------------------------------------------------
  // Votes embedded in a freet.

  /** The user has an up- or downvote on the freet. */
  predicate HasVote(f: Freet, issuerId: ObjectId) {
    issuerId in f.upvotes || issuerId in f.downvotes
  }

  /** Each user occurs at most once across the two vote lists. */
  ghost predicate VotesWellFormed(f: Freet) {
    forall u :: multiset(f.upvotes)[u] + multiset(f.downvotes)[u] <= 1
  }

  /** The freet after `addVote`: the issuer pushed onto the list `credible` selects. */
  function WithVote(f: Freet, issuerId: ObjectId, credible: bool): Freet {
    if credible then f.(upvotes := f.upvotes + [issuerId])
    else f.(downvotes := f.downvotes + [issuerId])
  }

  /** The freet after `removeVote`: one occurrence of the issuer spliced out of each list. */
  function WithoutVote(f: Freet, issuerId: ObjectId): Freet {
    f.(upvotes := SpliceOut(f.upvotes, issuerId), downvotes := SpliceOut(f.downvotes, issuerId))
  }

  /** `ids.some(id => id.toString() === x.toString())` is membership, since the string form is injective. */
  lemma SomeSameString(ids: seq<ObjectId>, x: ObjectId)
    ensures (exists k :: 0 <= k < |ids| && IdString(ids[k]) == IdString(x)) <==> x in ids
  {
    if exists k :: 0 <= k < |ids| && IdString(ids[k]) == IdString(x) {
      var k :| 0 <= k < |ids| && IdString(ids[k]) == IdString(x);
      IdStringInjective(ids[k], x);
    }
  }

  /**
   * `FreetCollection.isVoteExists`: compares string forms of the ids. The freet must
   * exist; the source dereferences the lookup result.
   */
  function IsVoteExists(freets: seq<Freet>, freetId: ObjectId, issuerId: ObjectId): (r: bool)
    requires FindFreet(freets, freetId).Some?
    ensures r <==> HasVote(FindFreet(freets, freetId).value, issuerId)
  {
    var f := FindFreet(freets, freetId).value;
    SomeSameString(f.upvotes, issuerId);
    SomeSameString(f.downvotes, issuerId);
    (exists k :: 0 <= k < |f.upvotes| && IdString(f.upvotes[k]) == IdString(issuerId))
    || (exists k :: 0 <= k < |f.downvotes| && IdString(f.downvotes[k]) == IdString(issuerId))
  }

  /** Voting only when no vote exists keeps the lists disjoint and duplicate-free, and records the vote. */
  lemma AddVoteKeepsWellFormed(f: Freet, issuerId: ObjectId, credible: bool)
    requires VotesWellFormed(f) && !HasVote(f, issuerId)
    ensures VotesWellFormed(WithVote(f, issuerId, credible))
    ensures HasVote(WithVote(f, issuerId, credible), issuerId)
  {
    var g := WithVote(f, issuerId, credible);
    forall u ensures multiset(g.upvotes)[u] + multiset(g.downvotes)[u] <= 1 {
      assert multiset(f.upvotes)[u] + multiset(f.downvotes)[u] <= 1;
      if u == issuerId {
        assert multiset(f.upvotes)[u] == 0 && multiset(f.downvotes)[u] == 0;
      }
    }
  }

  /** `addVote` changes only the selected list: the other one and every other field stay. */
  lemma AddVoteTouchesOneList(f: Freet, issuerId: ObjectId, credible: bool)
    ensures var g := WithVote(f, issuerId, credible);
      g.(upvotes := f.upvotes, downvotes := f.downvotes) == f
      && (credible ==> g.downvotes == f.downvotes && multiset(g.upvotes) == multiset(f.upvotes) + multiset{issuerId})
      && (!credible ==> g.upvotes == f.upvotes && multiset(g.downvotes) == multiset(f.downvotes) + multiset{issuerId})
  {
  }

  /** `removeVote` undoes an `addVote` made when the user had not voted. */
  lemma RemoveVoteUndoesAddVote(f: Freet, issuerId: ObjectId, credible: bool)
    requires !HasVote(f, issuerId)
    ensures WithoutVote(WithVote(f, issuerId, credible), issuerId) == f
  {
    if credible {
      SpliceOutAppended(f.upvotes, issuerId);
    } else {
      SpliceOutAppended(f.downvotes, issuerId);
    }
  }

  /**
   * `removeVote` splices one occurrence out of each list, so it leaves the user
   * without a vote whenever the user occurs at most once in each list.
   */
  lemma RemoveVoteClears(f: Freet, issuerId: ObjectId)
    requires multiset(f.upvotes)[issuerId] <= 1 && multiset(f.downvotes)[issuerId] <= 1
    ensures !HasVote(WithoutVote(f, issuerId), issuerId)
  {
    SpliceOutRemovesSingle(f.upvotes, issuerId);
    SpliceOutRemovesSingle(f.downvotes, issuerId);
  }

  /** On well-formed lists, `removeVote` clears the user's vote and keeps the lists well formed. */
  lemma RemoveVoteKeepsWellFormed(f: Freet, issuerId: ObjectId)
    requires VotesWellFormed(f)
    ensures !HasVote(WithoutVote(f, issuerId), issuerId)
    ensures VotesWellFormed(WithoutVote(f, issuerId))
  {
    assert multiset(f.upvotes)[issuerId] + multiset(f.downvotes)[issuerId] <= 1;
    RemoveVoteClears(f, issuerId);
    var g := WithoutVote(f, issuerId);
    forall u ensures multiset(g.upvotes)[u] + multiset(g.downvotes)[u] <= 1 {
      assert multiset(f.upvotes)[u] + multiset(f.downvotes)[u] <= 1;
    }
  }

  // ---------------------------------------------------------------------------
  // Reference links embedded in a freet. The source compares link ids with `===`;
  // the model compares ids by value (what the comparison evidently means).

  /** Position of the first link with that id (the one `findLink` returns). */
  function FirstLinkIndex(links: seq<Link>, linkId: ObjectId): (r: Option<nat>)
    ensures r.Some? ==> r.value < |links| && links[r.value].id == linkId
    ensures r.Some? ==> forall j :: 0 <= j < r.value ==> links[j].id != linkId
    ensures r.None? ==> forall j :: 0 <= j < |links| ==> links[j].id != linkId
  {
    FirstIndex(links, (l: Link) => l.id == linkId)
  }

  /** The link `findLink` returns: the first with that id, or null. */
  function FindLinkIn(links: seq<Link>, linkId: ObjectId): (r: Option<Link>)
    ensures r.Some? ==> r.value in links && r.value.id == linkId
    ensures r.None? <==> forall l :: l in links ==> l.id != linkId
  {
    var k := FirstLinkIndex(links, linkId);
    if k.Some? then Some(links[k.value]) else None
  }

  /** Position of the last link with that id, or -1 (the index `removeLink`'s loop ends with). */
  function LastLinkIndex(links: seq<Link>, linkId: ObjectId): (r: int)
    ensures -1 <= r < |links|
    ensures r >= 0 ==> links[r].id == linkId && forall j :: r < j < |links| ==> links[j].id != linkId
    ensures r == -1 ==> forall j :: 0 <= j < |links| ==> links[j].id != linkId
  {
    if links == [] then -1
    else if links[|links| - 1].id == linkId then |links| - 1
    else LastLinkIndex(links[..|links| - 1], linkId)
  }

  /** The freet after `addLink`. */
  function WithLink(f: Freet, link: Link): Freet {
    f.(links := f.links + [link])
  }

  /** The freet after `removeLink`: the last link with that id spliced out, if there is one. */
  function WithoutLink(f: Freet, linkId: ObjectId): Freet {
    var index := LastLinkIndex(f.links, linkId);
    if index == -1 then f else f.(links := RemoveAt(f.links, index))
  }

  /** `removeLink` with an id no link has is a no-op; otherwise it removes exactly one such link. */
  lemma RemoveLinkEffect(f: Freet, linkId: ObjectId)
    ensures (forall l :: l in f.links ==> l.id != linkId) ==> WithoutLink(f, linkId) == f
    ensures (exists l :: l in f.links && l.id == linkId) ==>
      var g := WithoutLink(f, linkId);
      g.(links := f.links) == f && |g.links| == |f.links| - 1
      && exists l: Link :: l.id == linkId && multiset(g.links) == multiset(f.links) - multiset{l}
  {
    var index := LastLinkIndex(f.links, linkId);
    if index != -1 {
      assert multiset(WithoutLink(f, linkId).links) == multiset(f.links) - multiset{f.links[index]};
    }
  }

  /** A link just added under a fresh id is the one `findLink` finds, and `removeLink` takes it out again. */
  lemma AddLinkRoundTrip(f: Freet, link: Link)
    requires forall l :: l in f.links ==> l.id != link.id
    ensures FindLinkIn(WithLink(f, link).links, link.id) == Some(link)
    ensures WithoutLink(WithLink(f, link), link.id) == f
  {
    var links := f.links + [link];
    assert LastLinkIndex(links, link.id) == |f.links|;
    assert RemoveAt(links, |f.links|) == f.links;
  }

  /**
   * When two links share an id, `removeLink` takes the last while `findLink` returns the
   * first: the link found is still there after the removal.
   */
  lemma RemoveLinkLeavesFoundLink(f: Freet, linkId: ObjectId, i: nat, j: nat)
    requires i < j < |f.links| && f.links[i].id == linkId && f.links[j].id == linkId
    ensures FindLinkIn(WithoutLink(f, linkId).links, linkId) == FindLinkIn(f.links, linkId)
    ensures |WithoutLink(f, linkId).links| == |f.links| - 1
  {
    var last := LastLinkIndex(f.links, linkId);
    var p := (l: Link) => l.id == linkId;
    var rest := RemoveAt(f.links, last);
    var prefix := f.links[..last];
    assert prefix <= f.links;
    assert prefix <= rest;
    assert FirstIndex(prefix, p).Some? by {
      assert p(prefix[i]);
    }
    FirstIndexPrefix(prefix, f.links, p);
    FirstIndexPrefix(prefix, rest, p);
  }

  /**
   * What `deleteLinksByUserId` does to one freet: for each link of the freet as loaded
   * whose issuer is the user, one `removeLink(freet._id, link.issuerId)`. The issuer id
   * lands in the link-id position, so each call removes the last link whose own id
   * equals the user id, if any.
   */
  function PruneLinks(f: Freet, userId: ObjectId, loaded: seq<Link>): Freet
    decreases |loaded|
  {
    if loaded == [] then f
    else PruneLinks(if loaded[0].issuerId == userId then WithoutLink(f, loaded[0].issuerId) else f, userId, loaded[1..])
  }

  /** Unless some link's id coincides with the user id, `deleteLinksByUserId` leaves the freet unchanged. */
  lemma {:induction false} PruneLinksNoMatch(f: Freet, userId: ObjectId, loaded: seq<Link>)
    requires forall l :: l in f.links ==> l.id != userId
    ensures PruneLinks(f, userId, loaded) == f
    decreases |loaded|
  {
    if loaded != [] {
      RemoveLinkEffect(f, userId);
      PruneLinksNoMatch(f, userId, loaded[1..]);
    }
  }

  /** Only links whose id is the user id can disappear; every other field stays. */
  lemma {:induction false} PruneLinksOnlyMatching(f: Freet, userId: ObjectId, loaded: seq<Link>)
    ensures PruneLinks(f, userId, loaded).(links := f.links) == f
    ensures forall l: Link :: l.id != userId ==>
      multiset(PruneLinks(f, userId, loaded).links)[l] == multiset(f.links)[l]
    decreases |loaded|
  {
    if loaded != [] {
      var g := if loaded[0].issuerId == userId then WithoutLink(f, userId) else f;
      PruneLinksOnlyMatching(g, userId, loaded[1..]);
      var index := LastLinkIndex(f.links, userId);
      if loaded[0].issuerId == userId && index != -1 {
        assert multiset(g.links) == multiset(f.links) - multiset{f.links[index]};
      }
    }
  }

  // ---------------------------------------------------------------------------
  // The content query `filter(authors, tags)`.

  /** `{$or: [{authorId: {$in: authors}}, {tags: {$in: tags}}]}`. */
  predicate Matches(f: Freet, authors: seq<ObjectId>, tags: seq<ObjectId>) {
    f.authorId in authors || exists t :: t in f.tags && t in tags
  }

  /** `.sort({dateModified: -1})`: newest first. */
  predicate SortedByDateDesc(s: seq<Freet>) {
    forall i, j :: 0 <= i < j < |s| ==> s[i].dateModified >= s[j].dateModified
  }

  /** Everything in a rearrangement of the tail of a sorted list, plus an older freet, is no newer than its head. */
  lemma HeadBoundsRest(f: Freet, s: seq<Freet>, rest: seq<Freet>)
    requires s != [] && SortedByDateDesc(s) && f.dateModified < s[0].dateModified
    requires multiset(rest) == multiset(s[1..]) + multiset{f}
    ensures forall x :: x in rest ==> x.dateModified <= s[0].dateModified
  {
    forall x | x in rest ensures x.dateModified <= s[0].dateModified {
      assert x in multiset(rest);
      if x != f {
        assert x in multiset(s[1..]);
        assert x in s[1..];
      }
    }
  }

  /** A freet no older than the head of a sorted list may go in front of it. */
  lemma SortedCons(x: Freet, s: seq<Freet>)
    requires SortedByDateDesc(s) && (s == [] || s[0].dateModified <= x.dateModified)
    ensures SortedByDateDesc([x] + s)
  {
    var r := [x] + s;
    forall i, j | 0 <= i < j < |r| ensures r[i].dateModified >= r[j].dateModified {
      assert r[j] == s[j - 1];
      if i > 0 {
        assert r[i] == s[i - 1];
      }
    }
  }

  function InsertByDate(f: Freet, s: seq<Freet>): (r: seq<Freet>)
    requires SortedByDateDesc(s)
    ensures SortedByDateDesc(r)
    ensures multiset(r) == multiset(s) + multiset{f}
  {
    if s == [] || s[0].dateModified <= f.dateModified then
      SortedCons(f, s);
      MultisetCons(f, s);
      [f] + s
    else
      var rest := InsertByDate(f, s[1..]);
      HeadBoundsRest(f, s, rest);
      assert rest != [] by {
        assert f in multiset(rest);
      }
      assert rest[0] in rest;
      SortedCons(s[0], rest);
      MultisetCons(s[0], rest);
      MultisetCons(s[0], s[1..]);
      assert s == [s[0]] + s[1..];
      [s[0]] + rest
  }

  function SortByDate(s: seq<Freet>): (r: seq<Freet>)
    ensures SortedByDateDesc(r)
    ensures multiset(r) == multiset(s)
  {
    if s == [] then []
    else
      assert s == [s[0]] + s[1..];
      InsertByDate(s[0], SortByDate(s[1..]))
  }

  /** `FreetCollection.filter(authors, tags)`. */
  function Filter(freets: seq<Freet>, authors: seq<ObjectId>, tags: seq<ObjectId>): (r: seq<Freet>)
    ensures SortedByDateDesc(r)
    ensures multiset(r) == multiset(Select(freets, (f: Freet) => Matches(f, authors, tags)))
    ensures forall f :: f in r <==> f in freets && Matches(f, authors, tags)
    ensures authors == [] && tags == [] ==> r == []
  {
    var matching := Select(freets, (f: Freet) => Matches(f, authors, tags));
    var r := SortByDate(matching);
    forall f ensures f in r <==> f in matching {
      assert f in r <==> f in multiset(r);
      assert f in matching <==> f in multiset(matching);
    }
    if authors == [] && tags == [] then
      SelectNone(freets, (f: Freet) => Matches(f, authors, tags));
      r
    else r
  }

  /** Each freet appears in a `filter` result at most once. */
  lemma FilterOnce(freets: seq<Freet>, authors: seq<ObjectId>, tags: seq<ObjectId>, f: Freet)
    requires UniqueKeys(freets, FreetKey)
    ensures multiset(Filter(freets, authors, tags))[f] <= 1
  {
    UniqueKeysOccurOnce(freets, FreetKey, f);
    SelectWithin(freets, (g: Freet) => Matches(g, authors, tags));
  }

  // ---------------------------------------------------------------------------
  // The collection's operations on the database.

  /** `FreetCollection.addOne`: tags are found or created first, then the freet is stored. */
  method AddOne(db: Database, authorId: ObjectId, content: string, tagNames: seq<string>, now: int)
    returns (freet: Freet)
    requires db.Valid()
    modifies db`tags, db`nextSerial, db`freets
    ensures db.Valid()
    ensures var r := TagCollection.FindOrCreateAll(old(db.tags), old(db.nextSerial), tagNames);
      && db.tags == r.1
      && freet == Freet(ObjectId(r.2), authorId, now, content, now, TagCollection.Ids(r.0), [], [], [])
      && db.freets == old(db.freets) + [freet]
      && db.nextSerial == r.2 + 1
  {
    var taglist := TagCollection.FindOrCreateMany(db, tagNames);
    var id := db.NewId();
    freet := Freet(id, authorId, now, content, now, TagCollection.Ids(taglist), [], [], []);
    WellKeyedAppend(db.freets, freet, FreetKey, id.serial);
    db.freets := db.freets + [freet];
  }

  /** `FreetCollection.updateOne`: new content, new tags, `dateModified` set to now. */
  method UpdateOne(db: Database, freetId: ObjectId, content: string, tagNames: seq<string>, now: int)
    returns (freet: Freet)
    requires db.Valid() && FreetIndex(db.freets, freetId).Some?
    modifies db`tags, db`nextSerial, db`freets
    ensures db.Valid()
    ensures var k := FreetIndex(old(db.freets), freetId).value;
      var r := TagCollection.FindOrCreateAll(old(db.tags), old(db.nextSerial), tagNames);
      && db.tags == r.1 && db.nextSerial == r.2
      && freet == old(db.freets)[k].(tags := TagCollection.Ids(r.0), content := content, dateModified := now)
      && db.freets == old(db.freets)[k := freet]
  {
    var k := FreetIndex(db.freets, freetId).value;
    freet := db.freets[k];
    var taglist := TagCollection.FindOrCreateMany(db, tagNames);
    freet := freet.(tags := TagCollection.Ids(taglist), content := content, dateModified := now);
    WellKeyedReplace(db.freets, k, freet, FreetKey, db.nextSerial);
    db.freets := db.freets[k := freet];
  }

  /** `FreetCollection.deleteOne`: the result of `deleteOne` is never null, so it answers true. */
  method DeleteOne(db: Database, freetId: ObjectId) returns (deleted: bool)
    requires db.Valid()
    modifies db`freets
    ensures db.Valid()
    ensures deleted
    ensures db.freets == RemoveFirst(old(db.freets), (f: Freet) => f.id == freetId)
    ensures forall f :: f in db.freets <==> f in old(db.freets) && f.id != freetId
  {
    var p := (f: Freet) => f.id == freetId;
    RemoveFirstByKey(db.freets, p, freetId, FreetKey, db.nextSerial);
    WellKeyedRemoveFirst(db.freets, p, FreetKey, db.nextSerial);
    db.freets := RemoveFirst(db.freets, p);
    deleted := true;
  }

  /** `FreetCollection.addVote`. */
  method AddVote(db: Database, freetId: ObjectId, issuerId: ObjectId, credible: bool) returns (freet: Freet)
    requires db.Valid() && FreetIndex(db.freets, freetId).Some?
    modifies db`freets
    ensures db.Valid()
    ensures var k := FreetIndex(old(db.freets), freetId).value;
      freet == WithVote(old(db.freets)[k], issuerId, credible) && db.freets == old(db.freets)[k := freet]
  {
    var k := FreetIndex(db.freets, freetId).value;
    freet := db.freets[k];
    if credible {
      freet := freet.(upvotes := freet.upvotes + [issuerId]);
    } else {
      freet := freet.(downvotes := freet.downvotes + [issuerId]);
    }
    db.freets := db.freets[k := freet];
  }

  /** The loop of `removeVote` over `[upvotes, downvotes]`: splices the issuer out of each list. */
  method SpliceVoteLists(upvotes: seq<ObjectId>, downvotes: seq<ObjectId>, issuerId: ObjectId) returns (lists: seq<seq<ObjectId>>)
    ensures lists == [SpliceOut(upvotes, issuerId), SpliceOut(downvotes, issuerId)]
  {
    lists := [upvotes, downvotes];
    for j := 0 to 2
      invariant |lists| == 2
      invariant lists[0] == if j > 0 then SpliceOut(upvotes, issuerId) else upvotes
      invariant lists[1] == if j > 1 then SpliceOut(downvotes, issuerId) else downvotes
    {
      var votes := lists[j];
      var index := IndexOf(votes, issuerId);
      if index != -1 {
        votes := RemoveAt(votes, index);
      }
      lists := lists[j := votes];
    }
  }

  /** `FreetCollection.removeVote`: the issuer's first occurrence is spliced out of both lists of that freet. */
  method RemoveVote(db: Database, freetId: ObjectId, issuerId: ObjectId) returns (freet: Freet)
    requires db.Valid() && FreetIndex(db.freets, freetId).Some?
    modifies db`freets
    ensures db.Valid()
    ensures var k := FreetIndex(old(db.freets), freetId).value;
      freet == WithoutVote(old(db.freets)[k], issuerId) && db.freets == old(db.freets)[k := freet]
  {
    var k := FreetIndex(db.freets, freetId).value;
    freet := db.freets[k];
    var lists := SpliceVoteLists(freet.upvotes, freet.downvotes, issuerId);
    freet := freet.(upvotes := lists[0], downvotes := lists[1]);
    WellKeyedReplace(db.freets, k, freet, FreetKey, db.nextSerial);
    db.freets := db.freets[k := freet];
  }

  /** `FreetCollection.deleteVotesByUserId`: `removeVote(freet._id, userId)` on every freet. */
  method DeleteVotesByUserId(db: Database, userId: ObjectId)
    requires db.Valid()
    modifies db`freets
    ensures db.Valid()
    ensures |db.freets| == |old(db.freets)|
    ensures forall i :: 0 <= i < |db.freets| ==> db.freets[i] == WithoutVote(old(db.freets)[i], userId)
  {
    ghost var clear := (f: Freet) => WithoutVote(f, userId);
    var i := 0;
    while i < |db.freets|
      invariant 0 <= i <= |old(db.freets)|
      invariant db.Valid()
      invariant db.freets == UpdatedBefore(old(db.freets), clear, i)
    {
      FreetIndexOfDistinct(db.freets, i, db.nextSerial);
      UpdatedBeforeStep(old(db.freets), clear, i);
      var updated := RemoveVote(db, db.freets[i].id, userId);
      i := i + 1;
    }
  }

  /** `FreetCollection.addLink`: a new link document, with a fresh id, pushed onto the freet's links. */
  method AddLink(db: Database, freetId: ObjectId, issuerId: ObjectId, refLink: string) returns (freet: Freet)
    requires db.Valid() && FreetIndex(db.freets, freetId).Some?
    modifies db`freets, db`nextSerial
    ensures db.Valid()
    ensures db.nextSerial == old(db.nextSerial) + 1
    ensures var k := FreetIndex(old(db.freets), freetId).value;
      freet == WithLink(old(db.freets)[k], Link(ObjectId(old(db.nextSerial)), issuerId, refLink))
      && db.freets == old(db.freets)[k := freet]
  {
    var id := db.NewId();
    var link := Link(id, issuerId, refLink);
    var k := FreetIndex(db.freets, freetId).value;
    freet := db.freets[k];
    freet := freet.(links := freet.links + [link]);
    db.freets := db.freets[k := freet];
  }

  /** `FreetCollection.removeLink`: the loop keeps the index of the last match, which is then spliced out. */
  method RemoveLink(db: Database, freetId: ObjectId, linkId: ObjectId) returns (freet: Freet)
    requires db.Valid() && FreetIndex(db.freets, freetId).Some?
    modifies db`freets
    ensures db.Valid()
    ensures var k := FreetIndex(old(db.freets), freetId).value;
      freet == WithoutLink(old(db.freets)[k], linkId) && db.freets == old(db.freets)[k := freet]
  {
    var k := FreetIndex(db.freets, freetId).value;
    freet := db.freets[k];
    var index := -1;
    var i := 0;
    while i < |freet.links|
      invariant 0 <= i <= |freet.links|
      invariant index == LastLinkIndex(freet.links[..i], linkId)
      invariant db.freets == old(db.freets)
    {
      TakeOneMore(freet.links, i);
      // `===` in the source; value equality here.
      if freet.links[i].id == linkId {
        index := i;
      }
      i := i + 1;
    }
    TakeAll(freet.links);
    if index != -1 {
      freet := freet.(links := RemoveAt(freet.links, index));
    }
    WellKeyedReplace(db.freets, k, freet, FreetKey, db.nextSerial);
    db.freets := db.freets[k := freet];
  }

  /** `FreetCollection.findLink`: the loop returns the first link with that id. */
  method FindLink(db: Database, freetId: ObjectId, linkId: ObjectId) returns (r: Option<Link>)
    requires FindFreet(db.freets, freetId).Some?
    ensures r == FindLinkIn(FindFreet(db.freets, freetId).value.links, linkId)
  {
    var freet := FindFreet(db.freets, freetId).value;
    var i := 0;
    while i < |freet.links|
      invariant 0 <= i <= |freet.links|
      invariant forall j :: 0 <= j < i ==> freet.links[j].id != linkId
    {
      // `===` in the source; value equality here.
      if freet.links[i].id == linkId {
        return Some(freet.links[i]);
      }
      i := i + 1;
    }
    return None;
  }

  /**
   * `FreetCollection.deleteLinksByUserId`: for every freet and every link it had when
   * loaded, a `removeLink` when the link's issuer is the user, one after the other.
   */
  method DeleteLinksByUserId(db: Database, userId: ObjectId)
    requires db.Valid()
    modifies db`freets
    ensures db.Valid()
    ensures |db.freets| == |old(db.freets)|
    ensures forall i :: 0 <= i < |db.freets| ==>
      db.freets[i] == PruneLinks(old(db.freets)[i], userId, old(db.freets)[i].links)
  {
    ghost var prune := (f: Freet) => PruneLinks(f, userId, f.links);
    var i := 0;
    while i < |db.freets|
      invariant 0 <= i <= |old(db.freets)|
      invariant db.Valid()
      invariant db.freets == UpdatedBefore(old(db.freets), prune, i)
    {
      UpdatedBeforeStep(old(db.freets), prune, i);
      PruneFreetLinks(db, i, userId);
      i := i + 1;
    }
  }

  /** One freet's turn in `deleteLinksByUserId`: `removeLink` for each loaded link the user issued. */
  method PruneFreetLinks(db: Database, i: nat, userId: ObjectId)
    requires db.Valid() && i < |db.freets|
    modifies db`freets
    ensures db.Valid()
    ensures db.freets == old(db.freets)[i := PruneLinks(old(db.freets)[i], userId, old(db.freets)[i].links)]
  {
    var loaded := db.freets[i].links;
    var j := 0;
    while j < |loaded|
      invariant 0 <= j <= |loaded|
      invariant |db.freets| == |old(db.freets)| && db.Valid()
      invariant db.freets == old(db.freets)[i := db.freets[i]]
      invariant PruneLinks(db.freets[i], userId, loaded[j..]) == PruneLinks(old(db.freets)[i], userId, loaded)
    {
      DropOneMore(loaded, j);
      // `===` in the source; value equality here.
      if loaded[j].issuerId == userId {
        FreetIndexOfDistinct(db.freets, i, db.nextSerial);
        // The issuer's id goes where `removeLink` expects a link id.
        var updated := RemoveLink(db, db.freets[i].id, loaded[j].issuerId);
      }
      j := j + 1;
    }
    assert loaded[j..] == [];
  }

}
