/**
 * The stable sort of `Array.prototype.sort` (stable since ECMAScript 2019),
 * specialised to a comparator that orders by an integer key, largest first,
 * as `.sort((a, b) => b[0] - a[0])` does.
 */
module StableSort {

  /** Inserts `x` before the first element whose key is not larger than `x`'s. */
  function Insert<T>(x: T, s: seq<T>, key: T -> int): (r: seq<T>)
    ensures |r| == |s| + 1
    ensures multiset(r) == multiset(s) + multiset{x}
  {
    if s == [] || key(x) >= key(s[0]) then [x] + s
    else
      assert s == [s[0]] + s[1..];
      [s[0]] + Insert(x, s[1..], key)
  }

  /** Insertion sort by descending key; equal keys keep their input order. */
  function SortDescending<T>(s: seq<T>, key: T -> int): (r: seq<T>)
    ensures |r| == |s|
    ensures multiset(r) == multiset(s)
  {
    if s == [] then []
    else
      assert s == [s[0]] + s[1..];
      Insert(s[0], SortDescending(s[1..], key), key)
  }

  ghost predicate Descending<T>(s: seq<T>, key: T -> int) {
    forall i, j :: 0 <= i < j < |s| ==> key(s[i]) >= key(s[j])
  }

  /** Applies `f` to every element, keeping the order. */
  function MapSeq<A, B>(f: A -> B, s: seq<A>): (r: seq<B>)
    ensures |r| == |s|
    ensures forall i :: 0 <= i < |s| ==> r[i] == f(s[i])
  {
    if s == [] then [] else [f(s[0])] + MapSeq(f, s[1..])
  }

  lemma {:induction false} InsertDescending<T>(x: T, s: seq<T>, key: T -> int)
    requires Descending(s, key)
    ensures Descending(Insert(x, s, key), key)
  {
    if s != [] && key(x) < key(s[0]) {
      InsertDescending(x, s[1..], key);
      var r := Insert(x, s[1..], key);
      assert forall y :: y in multiset(r) ==> y == x || y in multiset(s[1..]);
      forall j | 0 <= j < |r|
        ensures key(s[0]) >= key(r[j])
      {
        assert r[j] in multiset(r);
        if r[j] != x {
          assert r[j] in multiset(s[1..]);
          var k :| 0 <= k < |s[1..]| && s[1..][k] == r[j];
          assert s[k + 1] == r[j];
        }
      }
    }
  }

  /** The result of the sort is ordered by descending key. */
  lemma {:induction false} SortDescendingIsDescending<T>(s: seq<T>, key: T -> int)
    ensures Descending(SortDescending(s, key), key)
  {
    if s != [] {
      SortDescendingIsDescending(s[1..], key);
      InsertDescending(s[0], SortDescending(s[1..], key), key);
    }
  }

  /** Every element of the input is somewhere in the output, and only those. */
  lemma SortDescendingMembers<T>(s: seq<T>, key: T -> int, x: T)
    ensures x in SortDescending(s, key) <==> x in s
  {
    var r := SortDescending(s, key);
    assert x in r <==> x in multiset(r);
    assert x in s <==> x in multiset(s);
  }

  lemma {:induction false} InsertMapCommutes<A, B>(x: A, s: seq<A>, f: A -> B, ka: A -> int, kb: B -> int)
    requires forall a :: kb(f(a)) == ka(a)
    ensures Insert(f(x), MapSeq(f, s), kb) == MapSeq(f, Insert(x, s, ka))
  {
    if s != [] && ka(x) < ka(s[0]) {
      InsertMapCommutes(x, s[1..], f, ka, kb);
      assert MapSeq(f, s)[1..] == MapSeq(f, s[1..]);
    }
  }

  /**
   * Sorting key/value pairs and then projecting equals projecting and then
   * sorting, when the projection keeps the key.
   */
  lemma {:induction false} SortMapCommutes<A, B>(s: seq<A>, f: A -> B, ka: A -> int, kb: B -> int)
    requires forall a :: kb(f(a)) == ka(a)
    ensures SortDescending(MapSeq(f, s), kb) == MapSeq(f, SortDescending(s, ka))
  {
    if s != [] {
      SortMapCommutes(s[1..], f, ka, kb);
      assert MapSeq(f, s)[1..] == MapSeq(f, s[1..]);
      InsertMapCommutes(s[0], SortDescending(s[1..], ka), f, ka, kb);
    }
  }
}
