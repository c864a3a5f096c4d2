/** Document identifiers and the two orders a query returns documents in:
    natural (insertion, i.e. ascending identifier) order, and ascending
    order of a string field. */
module Listing {
  import opened Text

  /** A document identifier. Identifiers are handed out in increasing order,
      so ascending identifier order is insertion order. */
  type Id = nat

  /** The identifiers of `m` below `n`, in ascending order. */
  function Ids<V>(m: map<Id, V>, n: nat): (r: seq<Id>)
    ensures forall i, j :: 0 <= i < j < |r| ==> r[i] < r[j]
    ensures forall id :: id in r <==> id in m && id < n
  {
    if n == 0 then []
    else if n - 1 in m then
      var prefix := Ids(m, n - 1);
      assert forall i :: 0 <= i < |prefix| ==> prefix[i] in prefix;
      prefix + [n - 1]
    else Ids(m, n - 1)
  }

  /** A strictly ascending sequence holds each of its elements once. */
  lemma {:induction false} AscendingOnce(s: seq<Id>)
    requires forall i, j :: 0 <= i < j < |s| ==> s[i] < s[j]
    ensures forall id :: multiset(s)[id] == if id in s then 1 else 0
  {
    if s != [] {
      var t := s[..|s| - 1];
      assert s == t + [s[|s| - 1]];
      AscendingOnce(t);
      assert s[|s| - 1] !in t;
    }
  }

  /** `ids` is ordered ascending by `key`. */
  ghost predicate SortedBy(ids: seq<Id>, key: map<Id, string>)
    requires forall id :: id in ids ==> id in key
  {
    forall i, j :: 0 <= i < j < |ids| ==> LexLe(key[ids[i]], key[ids[j]])
  }

  /** A key no greater than every key of a sorted sequence can go in front of it. */
  lemma SortedCons(x: Id, ids: seq<Id>, key: map<Id, string>)
    requires x in key && forall id :: id in ids ==> id in key
    requires SortedBy(ids, key)
    requires forall id :: id in ids ==> LexLe(key[x], key[id])
    ensures SortedBy([x] + ids, key)
  {
    var r := [x] + ids;
    forall i, j | 0 <= i < j < |r| ensures LexLe(key[r[i]], key[r[j]]) {
      if i == 0 { assert r[j] in ids; } else { assert r[i] == ids[i - 1] && r[j] == ids[j - 1]; }
    }
  }

  /** Every key of a sorted sequence is at least its first key. */
  lemma SortedHead(ids: seq<Id>, key: map<Id, string>)
    requires ids != [] && forall id :: id in ids ==> id in key
    requires SortedBy(ids, key)
    ensures forall id :: id in ids ==> LexLe(key[ids[0]], key[id])
  {
    forall id | id in ids ensures LexLe(key[ids[0]], key[id]) {
      var j :| 0 <= j < |ids| && ids[j] == id;
      if j == 0 { LexLeReflexive(key[id]); }
    }
  }

  /** A key no greater than the first key of a sorted sequence is no greater than any of its keys. */
  lemma BelowHead(x: Id, ids: seq<Id>, key: map<Id, string>)
    requires x in key && forall id :: id in ids ==> id in key
    requires SortedBy(ids, key)
    requires ids == [] || LexLe(key[x], key[ids[0]])
    ensures forall id :: id in ids ==> LexLe(key[x], key[id])
  {
    if ids != [] {
      SortedHead(ids, key);
      forall id | id in ids ensures LexLe(key[x], key[id]) {
        LexLeTransitive(key[x], key[ids[0]], key[id]);
      }
    }
  }

  /** After inserting `x` into the tail, the head still has the least key. */
  lemma HeadBelowInserted(x: Id, ids: seq<Id>, rest: seq<Id>, key: map<Id, string>)
    requires ids != [] && x in key && forall id :: id in ids ==> id in key
    requires SortedBy(ids, key)
    requires !LexLe(key[x], key[ids[0]])
    requires multiset(rest) == multiset(ids[1..]) + multiset{x}
    requires forall id :: id in rest ==> id in key
    ensures forall id :: id in rest ==> LexLe(key[ids[0]], key[id])
  {
    LexLeTotal(key[x], key[ids[0]]);
    SortedHead(ids, key);
    forall id | id in rest ensures LexLe(key[ids[0]], key[id]) {
      assert id in multiset(rest);
      if id != x {
        assert id in multiset(ids[1..]);
        assert id in ids[1..];
        assert ids == [ids[0]] + ids[1..];
      }
    }
  }

  /** Sorting the identifiers of a collection, taken in ascending order,
      by the key map `key` lists each identifier of the collection exactly
      once, each no later than any identifier with a greater key. */
  lemma SortedListing(key: map<Id, string>, ids: seq<Id>, sorted: seq<Id>)
    requires forall i, j :: 0 <= i < j < |ids| ==> ids[i] < ids[j]
    requires forall id :: id in ids <==> id in key
    requires multiset(sorted) == multiset(ids)
    requires forall id :: id in sorted ==> id in key
    requires SortedBy(sorted, key)
    ensures forall id :: multiset(sorted)[id] == if id in key then 1 else 0
    ensures forall i, j :: 0 <= i < j < |sorted| ==>
              sorted[i] in key && sorted[j] in key && LexLe(key[sorted[i]], key[sorted[j]])
  {
    AscendingOnce(ids);
    forall i, j | 0 <= i < j < |sorted|
      ensures sorted[i] in key && sorted[j] in key && LexLe(key[sorted[i]], key[sorted[j]])
    {
      assert sorted[i] in sorted && sorted[j] in sorted;
    }
  }

  /** Insert `x` into `ids`, ahead of the first element whose key is not smaller. */
  function Insert(x: Id, ids: seq<Id>, key: map<Id, string>): (r: seq<Id>)
    requires x in key && forall id :: id in ids ==> id in key
    requires SortedBy(ids, key)
    ensures multiset(r) == multiset(ids) + multiset{x}
    ensures forall id :: id in r ==> id in key
    ensures SortedBy(r, key)
  {
    if ids == [] || LexLe(key[x], key[ids[0]]) then
      BelowHead(x, ids, key);
      SortedCons(x, ids, key);
      [x] + ids
    else
      assert ids == [ids[0]] + ids[1..];
      var rest := Insert(x, ids[1..], key);
      HeadBelowInserted(x, ids, rest, key);
      SortedCons(ids[0], rest, key);
      [ids[0]] + rest
  }

  /** Insertion sort of `ids` by `key`: the same identifiers, each as often
      as before, ascending by key. */
  function Sort(ids: seq<Id>, key: map<Id, string>): (r: seq<Id>)
    requires forall id :: id in ids ==> id in key
    ensures multiset(r) == multiset(ids)
    ensures forall id :: id in r ==> id in key
    ensures SortedBy(r, key)
  {
    if ids == [] then []
    else
      assert ids == [ids[0]] + ids[1..];
      Insert(ids[0], Sort(ids[1..], key), key)
  }
}
