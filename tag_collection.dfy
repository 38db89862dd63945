/**
 * The tag registry: tags are found by name and created on first use.
 * `findOrCreateMany` starts one `findOrCreateOne` per name and awaits them all;
 * here the calls run one after the other, in the order of the names.
 */
module TagCollection {

  import opened Common
  import opened Tables
  import opened Store

  /** `TagModel.findOne({tag: name})`. */
  function FindByName(tags: seq<Tag>, name: string): (r: Option<Tag>)
    ensures r.Some? ==> r.value in tags && r.value.tag == name
    ensures r.None? <==> forall t :: t in tags ==> t.tag != name
  {
    FindFirst(tags, (t: Tag) => t.tag == name)
  }

  /** No two tags in the registry share a name. */
  predicate UniqueNames(tags: seq<Tag>) {
    forall i, j :: 0 <= i < j < |tags| ==> tags[i].tag != tags[j].tag
  }

  /** The ids of a list of tags, in order (`taglist.map(t => t._id)`). */
  function Ids(tags: seq<Tag>): (r: seq<ObjectId>)
    ensures |r| == |tags| && forall i :: 0 <= i < |tags| ==> r[i] == tags[i].id
  {
    seq(|tags|, i requires 0 <= i < |tags| => tags[i].id)
  }

  /** Once a tag is found by name, registering more tags never changes which one is found. */
  lemma FindByNameStable(tags: seq<Tag>, more: seq<Tag>, name: string)
    requires tags <= more && FindByName(tags, name).Some?
    ensures FindByName(more, name) == FindByName(tags, name)
  {
    FindFirstPrefix(tags, more, (t: Tag) => t.tag == name);
  }

  /**
   * One `findOrCreateOne(name)` on registry `tags` when the next ObjectId has serial
   * `next`: the tag it returns, the registry afterwards and the next serial afterwards.
   */
  function FindOrCreate(tags: seq<Tag>, next: nat, name: string): (r: (Tag, seq<Tag>, nat))
    ensures r.0.tag == name
    ensures FindByName(r.1, name) == Some(r.0)
    ensures tags <= r.1 && |r.1| <= |tags| + 1 && r.2 >= next
    ensures FindByName(tags, name).Some? ==> r.1 == tags && r.2 == next
    ensures FindByName(tags, name).None? ==> r.1 == tags + [r.0] && r.0.id == ObjectId(next)
    ensures UniqueNames(tags) ==> UniqueNames(r.1)
  {
    var found := FindByName(tags, name);
    if found.Some? then (found.value, tags, next)
    else
      var tag := Tag(ObjectId(next), name);
      (tag, tags + [tag], next + 1)
  }

  /** A second call with the same name returns the same tag and changes nothing. */
  lemma FindOrCreateIdempotent(tags: seq<Tag>, next: nat, name: string)
    ensures var (t1, tags1, next1) := FindOrCreate(tags, next, name);
      FindOrCreate(tags1, next1, name) == (t1, tags1, next1)
  {
  }

  /**
   * `findOrCreateMany(names)` run sequentially: one tag per name, the registry
   * afterwards and the next serial afterwards.
   */
  function FindOrCreateAll(tags: seq<Tag>, next: nat, names: seq<string>): (r: (seq<Tag>, seq<Tag>, nat))
    ensures |r.0| == |names|
    ensures tags <= r.1 && |r.1| <= |tags| + |names| && r.2 >= next
    decreases |names|
  {
    if names == [] then ([], tags, next)
    else
      var first := FindOrCreate(tags, next, names[0]);
      var rest := FindOrCreateAll(first.1, first.2, names[1..]);
      ([first.0] + rest.0, rest.1, rest.2)
  }

  /** The i-th tag returned carries the i-th name, and is the one the final registry finds by that name. */
  lemma {:induction false} FindOrCreateAllNames(tags: seq<Tag>, next: nat, names: seq<string>, i: nat)
    requires i < |names|
    ensures FindOrCreateAll(tags, next, names).0[i].tag == names[i]
    ensures FindByName(FindOrCreateAll(tags, next, names).1, names[i]) == Some(FindOrCreateAll(tags, next, names).0[i])
    decreases |names|
  {
    var first := FindOrCreate(tags, next, names[0]);
    var rest := FindOrCreateAll(first.1, first.2, names[1..]);
    var all := FindOrCreateAll(tags, next, names);
    assert all.0 == [first.0] + rest.0 && all.1 == rest.1;
    if i == 0 {
      assert FindByName(first.1, names[0]) == Some(first.0);
      FindByNameStable(first.1, rest.1, names[0]);
    } else {
      FindOrCreateAllNames(first.1, first.2, names[1..], i - 1);
      TailIndex(names, i);
      ConsIndex(first.0, rest.0, i);
    }
  }

  /** Run sequentially, the registry never gains two tags with the same name. */
  lemma {:induction false} FindOrCreateAllUnique(tags: seq<Tag>, next: nat, names: seq<string>)
    requires UniqueNames(tags)
    ensures UniqueNames(FindOrCreateAll(tags, next, names).1)
    decreases |names|
  {
    if names != [] {
      var first := FindOrCreate(tags, next, names[0]);
      FindOrCreateAllUnique(first.1, first.2, names[1..]);
    }
  }

  /** Repeated names map to the same tag. */
  lemma FindOrCreateAllConsistent(tags: seq<Tag>, next: nat, names: seq<string>, i: nat, j: nat)
    requires i < |names| && j < |names| && names[i] == names[j]
    ensures FindOrCreateAll(tags, next, names).0[i] == FindOrCreateAll(tags, next, names).0[j]
  {
    FindOrCreateAllNames(tags, next, names, i);
    FindOrCreateAllNames(tags, next, names, j);
  }

  /** Names already registered create nothing. */
  lemma {:induction false} FindOrCreateAllKnown(tags: seq<Tag>, next: nat, names: seq<string>)
    requires forall i :: 0 <= i < |names| ==> FindByName(tags, names[i]).Some?
    ensures FindOrCreateAll(tags, next, names).1 == tags
    ensures FindOrCreateAll(tags, next, names).2 == next
    decreases |names|
  {
    if names != [] {
      FindOrCreateAllKnown(tags, next, names[1..]);
    }
  }

  /** `TagCollection.findOrCreateOne`. */
  method FindOrCreateOne(db: Database, name: string) returns (tag: Tag)
    requires db.Valid()
    modifies db`tags, db`nextSerial
    ensures db.Valid()
    ensures (tag, db.tags, db.nextSerial) == FindOrCreate(old(db.tags), old(db.nextSerial), name)
  {
    var found := FindByName(db.tags, name);
    if found.None? {
      var id := db.NewId();
      tag := Tag(id, name);
      WellKeyedAppend(db.tags, tag, TagKey, id.serial);
      db.tags := db.tags + [tag];
    } else {
      tag := found.value;
    }
  }

  /** `FindOrCreateAll` of one name is one `FindOrCreate`. */
  lemma FindOrCreateAllOne(tags: seq<Tag>, next: nat, name: string)
    ensures var step := FindOrCreate(tags, next, name);
      FindOrCreateAll(tags, next, [name]) == ([step.0], step.1, step.2)
  {
    var step := FindOrCreate(tags, next, name);
    assert [name][1..] == [];
    assert FindOrCreateAll(step.1, step.2, []) == ([], step.1, step.2);
    assert [step.0] + [] == [step.0];
  }

  /** Running the names one more at a time: `FindOrCreateAll` of a longer list is one more `FindOrCreate`. */
  lemma {:induction false} FindOrCreateAllSnoc(tags: seq<Tag>, next: nat, names: seq<string>, name: string)
    ensures var all := FindOrCreateAll(tags, next, names);
      var step := FindOrCreate(all.1, all.2, name);
      FindOrCreateAll(tags, next, names + [name]) == (all.0 + [step.0], step.1, step.2)
    decreases |names|
  {
    if names == [] {
      assert names + [name] == [name];
      FindOrCreateAllOne(tags, next, name);
      var step := FindOrCreate(tags, next, name);
      assert FindOrCreateAll(tags, next, names) == ([], tags, next);
      assert [] + [step.0] == [step.0];
    } else {
      var first := FindOrCreate(tags, next, names[0]);
      AppendOneTail(names, name);
      FindOrCreateAllSnoc(first.1, first.2, names[1..], name);
      var rest := FindOrCreateAll(first.1, first.2, names[1..]);
      var step := FindOrCreate(rest.1, rest.2, name);
      var restLonger := FindOrCreateAll(first.1, first.2, names[1..] + [name]);
      assert restLonger == (rest.0 + [step.0], step.1, step.2);
      assert FindOrCreateAll(tags, next, names + [name]) == ([first.0] + restLonger.0, restLonger.1, restLonger.2);
      ConsAppendOne(first.0, rest.0, step.0);
    }
  }

  /** `TagCollection.findOrCreateMany`, one name after the other. */
  method FindOrCreateMany(db: Database, names: seq<string>) returns (result: seq<Tag>)
    requires db.Valid()
    modifies db`tags, db`nextSerial
    ensures db.Valid()
    ensures (result, db.tags, db.nextSerial) == FindOrCreateAll(old(db.tags), old(db.nextSerial), names)
  {
    result := [];
    var i := 0;
    while i < |names|
      invariant 0 <= i <= |names|
      invariant db.Valid()
      invariant (result, db.tags, db.nextSerial) == FindOrCreateAll(old(db.tags), old(db.nextSerial), names[..i])
      decreases |names| - i
    {
      FindOrCreateAllSnoc(old(db.tags), old(db.nextSerial), names[..i], names[i]);
      TakeOneMore(names, i);
      var tag := FindOrCreateOne(db, names[i]);
      result := result + [tag];
      i := i + 1;
    }
    assert names[..i] == names;
  }
}
