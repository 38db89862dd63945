/**
 * The query shapes the collections use over a table held as a sequence of
 * documents: `find(cond)` (every match, in storage order), `findOne(cond)` (the
 * first match), `deleteOne(cond)` and `deleteMany(cond)`, and the JavaScript
 * array idiom `const i = a.indexOf(x); if (i !== -1) a.splice(i, 1)`.
 */
module Tables {

  import opened Common

  /** `find(cond)`: every document satisfying `p`, in storage order. */
  function Select<T(!new)>(s: seq<T>, p: T -> bool): (r: seq<T>)
    ensures |r| <= |s|
    ensures forall x :: x in r <==> x in s && p(x)
  {
    if s == [] then []
    else
      var rest := Select(s[1..], p);
      assert s == [s[0]] + s[1..];
      if p(s[0]) then [s[0]] + rest else rest
  }

  /** `deleteMany(cond)`: the table without the documents satisfying `p`. */
  function Reject<T(!new)>(s: seq<T>, p: T -> bool): (r: seq<T>)
    ensures forall x :: x in r <==> x in s && !p(x)
  {
    Select(s, x => !p(x))
  }

  /** `find` and `deleteMany` with the same condition split the table: nothing is lost or duplicated. */
  lemma {:induction false} SelectRejectPartition<T(!new)>(s: seq<T>, p: T -> bool)
    ensures multiset(Select(s, p)) + multiset(Reject(s, p)) == multiset(s)
  {
    if s != [] {
      var tail := s[1..];
      SelectRejectPartition(tail, p);
      var a, b := Select(tail, p), Reject(tail, p);
      MultisetCons(s[0], tail);
      assert s == [s[0]] + tail;
      var q := x => !p(x);
      assert Reject(s, p) == Select(s, q) && b == Select(tail, q);
      if p(s[0]) {
        assert Select(s, p) == [s[0]] + a;
        assert Reject(s, p) == b;
        MultisetCons(s[0], a);
        assert multiset(Select(s, p)) + multiset(Reject(s, p)) == multiset{s[0]} + (multiset(a) + multiset(b));
      } else {
        assert Select(s, p) == a;
        assert Reject(s, p) == [s[0]] + b;
        MultisetCons(s[0], b);
        assert multiset(Select(s, p)) + multiset(Reject(s, p)) == multiset{s[0]} + (multiset(a) + multiset(b));
      }
    }
  }

  lemma MultisetCons<T>(x: T, s: seq<T>)
    ensures multiset([x] + s) == multiset{x} + multiset(s)
  {
  }

  /** `find(cond)` returns documents of the table, each at most as often as it is stored. */
  lemma SelectWithin<T(!new)>(s: seq<T>, p: T -> bool)
    ensures multiset(Select(s, p)) <= multiset(s)
  {
    SelectRejectPartition(s, p);
  }

  /** A condition no document satisfies selects nothing. */
  lemma {:induction false} SelectNone<T(!new)>(s: seq<T>, p: T -> bool)
    requires forall x :: x in s ==> !p(x)
    ensures Select(s, p) == []
  {
    if s != [] {
      SelectNone(s[1..], p);
    }
  }

  /** Position of the first document satisfying `p`, the one `findOne`/`deleteOne` act on. */
  function FirstIndex<T>(s: seq<T>, p: T -> bool): (r: Option<nat>)
    ensures r.Some? ==> r.value < |s| && p(s[r.value]) && forall j :: 0 <= j < r.value ==> !p(s[j])
    ensures r.None? ==> forall j :: 0 <= j < |s| ==> !p(s[j])
  {
    if s == [] then None
    else if p(s[0]) then Some(0)
    else
      var r := FirstIndex(s[1..], p);
      if r.Some? then Some(r.value + 1) else None
  }

  /** `findOne(cond)`: the first matching document, or null. */
  function FindFirst<T(!new)>(s: seq<T>, p: T -> bool): (r: Option<T>)
    ensures r.Some? ==> r.value in s && p(r.value)
    ensures r.None? <==> forall x :: x in s ==> !p(x)
  {
    var k := FirstIndex(s, p);
    if k.Some? then Some(s[k.value]) else None
  }

  /** Appending documents never changes which one `findOne` returns, once one matched. */
  lemma {:induction false} FirstIndexPrefix<T>(s: seq<T>, t: seq<T>, p: T -> bool)
    requires s <= t && FirstIndex(s, p).Some?
    ensures FirstIndex(t, p) == FirstIndex(s, p)
  {
    if !p(s[0]) {
      assert s[1..] <= t[1..];
      FirstIndexPrefix(s[1..], t[1..], p);
    }
  }

  lemma FindFirstPrefix<T(!new)>(s: seq<T>, t: seq<T>, p: T -> bool)
    requires s <= t && FindFirst(s, p).Some?
    ensures FindFirst(t, p) == FindFirst(s, p)
  {
    FirstIndexPrefix(s, t, p);
  }

  /**
   * `populate` on an array of references: each reference looked up with `look`,
   * in order, the ones that find nothing dropped.
   */
  function LookUpAll<T>(ids: seq<ObjectId>, look: ObjectId -> Option<T>): (r: seq<T>)
    ensures |r| <= |ids|
    ensures forall x :: x in r ==> exists i :: 0 <= i < |ids| && look(ids[i]) == Some(x)
  {
    if ids == [] then []
    else
      var rest := LookUpAll(ids[1..], look);
      assert forall x :: x in rest ==> exists i :: 0 <= i < |ids| && look(ids[i]) == Some(x) by {
        forall x | x in rest ensures exists i :: 0 <= i < |ids| && look(ids[i]) == Some(x) {
          var j :| 0 <= j < |ids[1..]| && look(ids[1..][j]) == Some(x);
          assert ids[1..][j] == ids[j + 1];
        }
      }
      match look(ids[0])
      case Some(x) => [x] + rest
      case None => rest
  }

  /** When every reference finds its document, populating keeps length and order. */
  lemma {:induction false} LookUpAllFound<T>(ids: seq<ObjectId>, look: ObjectId -> Option<T>)
    requires forall i :: 0 <= i < |ids| ==> look(ids[i]).Some?
    ensures |LookUpAll(ids, look)| == |ids|
    ensures forall i :: 0 <= i < |ids| ==> LookUpAll(ids, look)[i] == look(ids[i]).value
  {
    if ids != [] {
      var tail := ids[1..];
      forall i | 0 <= i < |tail| ensures look(tail[i]).Some? {
        assert tail[i] == ids[i + 1];
      }
      LookUpAllFound(tail, look);
      var rest := LookUpAll(tail, look);
      var r := [look(ids[0]).value] + rest;
      assert LookUpAll(ids, look) == r;
      forall i | 0 < i < |ids| ensures r[i] == look(ids[i]).value {
        assert r[i] == rest[i - 1];
        assert tail[i - 1] == ids[i];
      }
    }
  }

  /** Every reference that finds its document contributes that document to the populated list. */
  lemma {:induction false} LookUpAllComplete<T>(ids: seq<ObjectId>, look: ObjectId -> Option<T>, i: nat)
    requires i < |ids| && look(ids[i]).Some?
    ensures look(ids[i]).value in LookUpAll(ids, look)
    decreases i
  {
    if i > 0 {
      assert ids[1..][i - 1] == ids[i];
      LookUpAllComplete(ids[1..], look, i - 1);
    }
  }

  /** Taking one more element of a sequence appends that element. */
  lemma TakeOneMore<T>(s: seq<T>, i: nat)
    requires i < |s|
    ensures s[..i + 1] == s[..i] + [s[i]]
    ensures s[..i + 1][..i] == s[..i] && s[..i + 1][i] == s[i]
  {
  }

  /** Dropping one more element of a sequence drops the head of the rest. */
  lemma DropOneMore<T>(s: seq<T>, i: nat)
    requires i < |s|
    ensures s[i..][0] == s[i] && s[i..][1..] == s[i + 1..]
  {
  }

  /** Indexing past the head of `[x] + s`, and into the tail of `s`. */
  lemma ConsIndex<T>(x: T, s: seq<T>, i: nat)
    requires 0 < i <= |s|
    ensures ([x] + s)[i] == s[i - 1]
  {
  }

  lemma TailIndex<T>(s: seq<T>, i: nat)
    requires 0 < i < |s|
    ensures s[1..][i - 1] == s[i]
  {
  }

  /** Writing position `i` and then taking one more element appends the new value. */
  lemma UpdateTakeOneMore<T>(s: seq<T>, i: nat, x: T)
    requires i < |s|
    ensures s[i := x][..i + 1] == s[..i] + [x]
  {
  }

  lemma TakeAll<T>(s: seq<T>)
    ensures s[..|s|] == s
  {
  }

  /** Appending after a non-empty sequence keeps its head and appends to its tail. */
  lemma AppendOneTail<T>(s: seq<T>, x: T)
    requires s != []
    ensures (s + [x])[0] == s[0] && (s + [x])[1..] == s[1..] + [x]
  {
  }

  lemma ConsAppendOne<T>(x: T, s: seq<T>, y: T)
    ensures [x] + (s + [y]) == ([x] + s) + [y]
  {
  }

  function RemoveAt<T>(s: seq<T>, k: nat): (r: seq<T>)
    requires k < |s|
    ensures |r| == |s| - 1
    ensures forall j :: 0 <= j < k ==> r[j] == s[j]
    ensures forall j :: k <= j < |r| ==> r[j] == s[j + 1]
    ensures multiset(r) == multiset(s) - multiset{s[k]}
  {
    assert s == s[..k] + [s[k]] + s[k + 1..];
    s[..k] + s[k + 1..]
  }

  /** `deleteOne(cond)`: removes the first matching document, if any, and nothing else. */
  function RemoveFirst<T>(s: seq<T>, p: T -> bool): (r: seq<T>)
    ensures FirstIndex(s, p).None? ==> r == s
    ensures FirstIndex(s, p).Some? ==>
      |r| == |s| - 1 && multiset(r) == multiset(s) - multiset{s[FirstIndex(s, p).value]}
    ensures FirstIndex(s, p).Some? ==>
      r == s[..FirstIndex(s, p).value] + s[FirstIndex(s, p).value + 1..]
  {
    var k := FirstIndex(s, p);
    if k.Some? then RemoveAt(s, k.value) else s
  }

  // ---------------------------------------------------------------------------
  // The `_id` index: every document has its own key, handed out by the id generator.

  /** No two documents share a key. */
  predicate UniqueKeys<T, K(==)>(s: seq<T>, key: T -> K) {
    forall i, j :: 0 <= i < j < |s| ==> key(s[i]) != key(s[j])
  }

  /** Keys are unique and every key was handed out before serial `next`. */
  ghost predicate WellKeyed<T>(s: seq<T>, key: T -> ObjectId, next: nat) {
    UniqueKeys(s, key) && forall i :: 0 <= i < |s| ==> key(s[i]).serial < next
  }

  lemma WellKeyedGrow<T>(s: seq<T>, key: T -> ObjectId, next: nat, next': nat)
    requires WellKeyed(s, key, next) && next <= next'
    ensures WellKeyed(s, key, next')
  {
  }

  /** In a table with unique keys each document occurs once. */
  lemma {:induction false} UniqueKeysOccurOnce<T, K>(s: seq<T>, key: T -> K, x: T)
    requires UniqueKeys(s, key)
    ensures multiset(s)[x] <= 1
  {
    if s != [] {
      assert s == [s[0]] + s[1..];
      assert UniqueKeys(s[1..], key);
      UniqueKeysOccurOnce(s[1..], key, x);
      if s[0] == x {
        assert forall k :: 0 <= k < |s[1..]| ==> key(s[1..][k]) != key(x);
      }
    }
  }

  /** Inserting a document under a freshly generated id keeps the index sound. */
  lemma WellKeyedAppend<T>(s: seq<T>, x: T, key: T -> ObjectId, next: nat)
    requires WellKeyed(s, key, next) && key(x) == ObjectId(next)
    ensures WellKeyed(s + [x], key, next + 1)
  {
  }

  /** Saving a document back under its own key keeps the index sound. */
  lemma WellKeyedReplace<T>(s: seq<T>, k: nat, x: T, key: T -> ObjectId, next: nat)
    requires WellKeyed(s, key, next) && k < |s| && key(x) == key(s[k])
    ensures WellKeyed(s[k := x], key, next)
  {
  }

  lemma {:induction false} WellKeyedSelect<T(!new)>(s: seq<T>, p: T -> bool, key: T -> ObjectId, next: nat)
    requires WellKeyed(s, key, next)
    ensures WellKeyed(Select(s, p), key, next)
  {
    if s != [] {
      var tail := s[1..];
      assert WellKeyed(tail, key, next) by {
        forall i | 0 <= i < |tail| ensures tail[i] == s[i + 1] { }
      }
      WellKeyedSelect(tail, p, key, next);
      var rest := Select(tail, p);
      if p(s[0]) {
        HeadKeyNotInTail(s, key);
        assert s[0] in s;
        WellKeyedCons(s[0], rest, key, next);
        assert Select(s, p) == [s[0]] + rest;
      } else {
        assert Select(s, p) == rest;
      }
    }
  }

  /** Putting in front a document whose key is fresh and below `next` keeps the index sound. */
  lemma WellKeyedCons<T>(x: T, rest: seq<T>, key: T -> ObjectId, next: nat)
    requires WellKeyed(rest, key, next) && key(x).serial < next
    requires forall y :: y in rest ==> key(y) != key(x)
    ensures WellKeyed([x] + rest, key, next)
  {
    var r := [x] + rest;
    forall i, j | 0 <= i < j < |r| ensures key(r[i]) != key(r[j]) {
      assert r[j] == rest[j - 1];
      if i > 0 {
        assert r[i] == rest[i - 1];
      } else {
        assert rest[j - 1] in rest;
      }
    }
    forall i | 0 <= i < |r| ensures key(r[i]).serial < next {
      if i > 0 {
        assert r[i] == rest[i - 1];
      }
    }
  }

  /** With unique keys, no later document shares the first one's key. */
  lemma HeadKeyNotInTail<T>(s: seq<T>, key: T -> ObjectId)
    requires s != [] && UniqueKeys(s, key)
    ensures forall x :: x in s[1..] ==> key(x) != key(s[0])
  {
    forall x | x in s[1..] ensures key(x) != key(s[0]) {
      var m :| 0 <= m < |s[1..]| && s[1..][m] == x;
      assert s[m + 1] == x;
    }
  }

  lemma WellKeyedReject<T(!new)>(s: seq<T>, p: T -> bool, key: T -> ObjectId, next: nat)
    requires WellKeyed(s, key, next)
    ensures WellKeyed(Reject(s, p), key, next)
  {
    WellKeyedSelect(s, x => !p(x), key, next);
  }

  lemma WellKeyedRemoveFirst<T>(s: seq<T>, p: T -> bool, key: T -> ObjectId, next: nat)
    requires WellKeyed(s, key, next)
    ensures WellKeyed(RemoveFirst(s, p), key, next)
  {
  }

  /**
   * With unique keys, `deleteOne` on a key condition leaves no document with that key and
   * keeps every other document.
   */
  lemma RemoveFirstByKey<T>(s: seq<T>, p: T -> bool, id: ObjectId, key: T -> ObjectId, next: nat)
    requires WellKeyed(s, key, next)
    requires forall i :: 0 <= i < |s| ==> (p(s[i]) <==> key(s[i]) == id)
    ensures forall x :: x in RemoveFirst(s, p) ==> key(x) != id
    ensures forall x :: x in s && key(x) != id ==> x in RemoveFirst(s, p)
  {
  }

  /** `a.indexOf(x)`: the first position holding `x`, or -1. */
  function IndexOf<T(==)>(s: seq<T>, x: T): (i: int)
    ensures -1 <= i < |s|
    ensures i == -1 <==> x !in s
    ensures i >= 0 ==> s[i] == x && x !in s[..i]
  {
    if s == [] then -1
    else if s[0] == x then 0
    else
      var i := IndexOf(s[1..], x);
      assert s[1..][..(if i >= 0 then i else 0)] == s[1..(if i >= 0 then i else 0) + 1];
      if i == -1 then -1 else i + 1
  }

  /** `const i = a.indexOf(x); if (i !== -1) a.splice(i, 1);`: drops one occurrence of `x`. */
  function SpliceOut<T(==)>(s: seq<T>, x: T): (r: seq<T>)
    ensures multiset(r) == multiset(s) - multiset{x}
    ensures x !in s ==> r == s
  {
    var i := IndexOf(s, x);
    if i == -1 then s else RemoveAt(s, i)
  }

  /** Splicing out a value just pushed onto a list free of it restores the list. */
  lemma SpliceOutAppended<T>(s: seq<T>, x: T)
    requires x !in s
    ensures SpliceOut(s + [x], x) == s
  {
    assert SpliceOut(s + [x], x) == RemoveAt(s + [x], |s|);
  }

  /** Occurring at most once beforehand, `x` is gone after one splice. */
  lemma SpliceOutRemovesSingle<T>(s: seq<T>, x: T)
    requires multiset(s)[x] <= 1
    ensures x !in SpliceOut(s, x)
  {
    var r := SpliceOut(s, x);
    assert multiset(r)[x] == 0;
  }

  /** A table part-way through a pass that rewrites each document with `f`: positions before `n` are done. */
  function UpdatedBefore<T>(s: seq<T>, f: T -> T, n: nat): (r: seq<T>)
    ensures |r| == |s|
    ensures forall m :: 0 <= m < |r| ==> r[m] == if m < n then f(s[m]) else s[m]
  {
    seq(|s|, m requires 0 <= m < |s| => if m < n then f(s[m]) else s[m])
  }

  /** One more step of the pass rewrites position `n`, still untouched. */
  lemma UpdatedBeforeStep<T>(s: seq<T>, f: T -> T, n: nat)
    requires n < |s|
    ensures UpdatedBefore(s, f, n)[n] == s[n]
    ensures UpdatedBefore(s, f, n)[n := f(s[n])] == UpdatedBefore(s, f, n + 1)
  {
  }

  /** `a[k] = v` on a table: only position `k` changes. */
  function Replace<T>(s: seq<T>, k: nat, v: T): (r: seq<T>)
    requires k < |s|
    ensures |r| == |s| && r[k] == v
    ensures forall j :: 0 <= j < |s| && j != k ==> r[j] == s[j]
  {
    s[k := v]
  }
}
