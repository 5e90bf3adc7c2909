/**
 The ordered multimap of active timers, as the sequence its iterators walk over:
 ascending keys, and equal keys in the order they were inserted.
 */
module TimerQueue {

  /** `subscriber` stands for the subscriber's address. The interval is in milliseconds. */
  datatype TimerObject = TimerObject(subscriber: nat, userId: nat, isPeriodical: bool, periodicalInterval: int)

  /** A map node. `id` numbers the accepted launch it belongs to and `rank` numbers the
      insertion that made it; the code has neither, and no branch reads them. */
  datatype Entry = Entry(expiry: int, timer: TimerObject, id: nat, rank: nat)

  predicate Names(e: Entry, subscriber: nat, userId: nat) {
    e.timer.subscriber == subscriber && e.timer.userId == userId
  }

  /** Expires earlier, or at the same instant but was inserted earlier. */
  predicate Before(a: Entry, b: Entry) {
    a.expiry < b.expiry || (a.expiry == b.expiry && a.rank < b.rank)
  }

  ghost predicate Sorted(s: seq<Entry>) {
    forall i, j :: 0 <= i < j < |s| ==> Before(s[i], s[j])
  }

  /** No two active timers share subscriber and user id. */
  ghost predicate Distinct(s: seq<Entry>) {
    forall i, j :: 0 <= i < j < |s| ==> !Names(s[i], s[j].timer.subscriber, s[j].timer.userId)
  }

  /** Where a multimap puts a new node: behind every node whose key is not larger. */
  function UpperBound(s: seq<Entry>, key: int): (p: nat)
    ensures p <= |s|
    ensures forall i :: 0 <= i < p ==> s[i].expiry <= key
    ensures p < |s| ==> key < s[p].expiry
  {
    if s == [] || key < s[0].expiry then 0 else 1 + UpperBound(s[1..], key)
  }

  /** `multimap::emplace`. */
  function Emplace(s: seq<Entry>, e: Entry): seq<Entry> {
    var p := UpperBound(s, e.expiry);
    s[..p] + [e] + s[p..]
  }

  /** `multimap::erase(iterator)`. */
  function RemoveAt(s: seq<Entry>, i: nat): seq<Entry>
    requires i < |s|
  {
    s[..i] + s[i + 1..]
  }

  /** `multimap::erase(key)`: every node with that key goes. */
  function EraseKey(s: seq<Entry>, key: int): seq<Entry> {
    if s == [] then []
    else if s[0].expiry == key then EraseKey(s[1..], key)
    else [s[0]] + EraseKey(s[1..], key)
  }

  /** The first timer of that subscriber with that user id, or |s|. */
  function Find(s: seq<Entry>, subscriber: nat, userId: nat): (p: nat)
    ensures p <= |s|
    ensures p < |s| ==> Names(s[p], subscriber, userId)
    ensures forall i :: 0 <= i < p ==> !Names(s[i], subscriber, userId)
  {
    if s == [] || Names(s[0], subscriber, userId) then 0 else 1 + Find(s[1..], subscriber, userId)
  }

  /** The erase takes every node with the key and no other. */
  lemma {:induction false} EraseKeyTakesAll(s: seq<Entry>, key: int, x: Entry)
    ensures multiset(EraseKey(s, key))[x] == if x.expiry == key then 0 else multiset(s)[x]
  {
    if s != [] {
      EraseKeyTakesAll(s[1..], key, x);
      assert s == [s[0]] + s[1..];
    }
  }

  /** A node younger than all others goes to the only place that keeps the order. */
  lemma EmplaceSorts(s: seq<Entry>, e: Entry)
    requires Sorted(s)
    requires forall x :: x in s ==> x.rank < e.rank
    ensures Sorted(Emplace(s, e))
  {
    var p := UpperBound(s, e.expiry);
    forall i | p <= i < |s| ensures e.expiry < s[i].expiry {
      assert i == p || Before(s[p], s[i]);
    }
    assert forall i :: 0 <= i < p ==> s[i] in s;
  }

  lemma EmplaceContents(s: seq<Entry>, e: Entry)
    ensures multiset(Emplace(s, e)) == multiset(s) + multiset{e}
    ensures forall x :: x in Emplace(s, e) <==> x in s || x == e
  {
    var p := UpperBound(s, e.expiry);
    assert s == s[..p] + s[p..];
    assert multiset(Emplace(s, e)) == multiset(s[..p]) + multiset{e} + multiset(s[p..]);
    assert forall x :: x in Emplace(s, e) <==> x in multiset(Emplace(s, e));
    assert forall x :: x in s <==> x in multiset(s);
  }

  lemma RemoveContents(s: seq<Entry>, i: nat)
    requires i < |s|
    ensures multiset(s) == multiset(RemoveAt(s, i)) + multiset{s[i]}
    ensures forall x :: x in RemoveAt(s, i) ==> x in s
  {
    assert s == s[..i] + [s[i]] + s[i + 1..];
  }

  lemma RemoveSorts(s: seq<Entry>, i: nat)
    requires i < |s|
    requires Sorted(s)
    ensures Sorted(RemoveAt(s, i))
  {
  }

  /** Nodes of a sorted map with a key above `key` are untouched by erasing `key`. */
  lemma {:induction false} EraseKeyKeeps(s: seq<Entry>, key: int)
    requires forall x :: x in s ==> x.expiry != key
    ensures EraseKey(s, key) == s
  {
    if s != [] {
      assert s[0] in s;
      assert forall x :: x in s[1..] ==> x in s;
      EraseKeyKeeps(s[1..], key);
    }
  }

  /** Undoing an insertion that came first, by key, gives back the map as it was: the new
      node can be first only when no other node has its key. */
  lemma EraseUndoesFrontEmplace(s: seq<Entry>, e: Entry)
    requires Sorted(s)
    requires UpperBound(s, e.expiry) == 0
    ensures EraseKey(Emplace(s, e), e.expiry) == s
  {
    forall x | x in s ensures x.expiry != e.expiry {
      var i :| 0 <= i < |s| && s[i] == x;
      assert i == 0 || Before(s[0], s[i]);
    }
    assert Emplace(s, e) == [e] + s;
    assert Emplace(s, e)[1..] == s;
    EraseKeyKeeps(s, e.expiry);
  }

  /** The first node of a sorted map is the least of its nodes. */
  lemma FirstIsLeast(s: seq<Entry>, e: Entry)
    requires Sorted(s) && e in multiset(s)
    ensures s[0] == e || Before(s[0], e)
  {
    var i :| 0 <= i < |s| && s[i] == e;
  }

  /** The order determines the sequence: a multiset of nodes has one sorted arrangement. */
  lemma {:induction false} SortedIsUnique(a: seq<Entry>, b: seq<Entry>)
    requires Sorted(a) && Sorted(b)
    requires multiset(a) == multiset(b)
    ensures a == b
  {
    assert |a| == |multiset(a)| == |multiset(b)| == |b|;
    if a != [] {
      FirstIsLeast(a, b[0]);
      FirstIsLeast(b, a[0]);
      assert Sorted(a[1..]) && Sorted(b[1..]);
      assert a[0] == b[0];
      hide Sorted;
      TailsAgree(a, b);
      SortedIsUnique(a[1..], b[1..]);
    }
  }

  lemma TailsAgree(a: seq<Entry>, b: seq<Entry>)
    requires a != [] && b != [] && a[0] == b[0]
    requires multiset(a) == multiset(b)
    ensures multiset(a[1..]) == multiset(b[1..])
  {
    assert a == [a[0]] + a[1..] && b == [b[0]] + b[1..];
    assert multiset(a[1..]) == multiset(a) - multiset{a[0]};
    assert multiset(b[1..]) == multiset(b) - multiset{a[0]};
  }

  /** Removing the timer that `Find` returns leaves none of that name. */
  lemma RemoveFoundLeavesNone(s: seq<Entry>, subscriber: nat, userId: nat)
    requires Distinct(s)
    requires Find(s, subscriber, userId) < |s|
    ensures forall x :: x in RemoveAt(s, Find(s, subscriber, userId)) ==> !Names(x, subscriber, userId)
  {
    var p := Find(s, subscriber, userId);
    var r := RemoveAt(s, p);
    forall x | x in r ensures !Names(x, subscriber, userId) {
      var i :| 0 <= i < |r| && r[i] == x;
      if i >= p {
        assert x == s[i + 1];
        assert !Names(s[p], s[i + 1].timer.subscriber, s[i + 1].timer.userId);
      }
    }
  }

  lemma EmplaceDistinct(s: seq<Entry>, e: Entry)
    requires Distinct(s)
    requires forall x :: x in s ==> !Names(x, e.timer.subscriber, e.timer.userId)
    ensures Distinct(Emplace(s, e))
  {
    var p := UpperBound(s, e.expiry);
    assert forall i :: 0 <= i < |s| ==> s[i] in s;
  }

  function Ids(s: seq<Entry>): (r: seq<nat>)
    ensures |r| == |s|
    ensures forall i :: 0 <= i < |s| ==> r[i] == s[i].id
  {
    seq(|s|, i requires 0 <= i < |s| => s[i].id)
  }

  lemma EmplaceIds(s: seq<Entry>, e: Entry)
    ensures multiset(Ids(Emplace(s, e))) == multiset(Ids(s)) + multiset{e.id}
  {
    var p := UpperBound(s, e.expiry);
    assert Ids(Emplace(s, e)) == Ids(s[..p]) + [e.id] + Ids(s[p..]);
    assert Ids(s) == Ids(s[..p]) + Ids(s[p..]);
  }

  lemma RemoveIds(s: seq<Entry>, i: nat)
    requires i < |s|
    ensures multiset(Ids(s)) == multiset(Ids(RemoveAt(s, i))) + multiset{s[i].id}
  {
    assert Ids(RemoveAt(s, i)) == Ids(s[..i]) + Ids(s[i + 1..]);
    assert Ids(s) == Ids(s[..i]) + [s[i].id] + Ids(s[i + 1..]);
  }
}
