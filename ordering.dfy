/** Ordered query results. The store returns the rows a query selects in the
    order its `orderBy` asks for; rows with equal sort keys come back in an
    order it does not promise. `Listing` models that: the rows of a set, in
    some order that is sorted by the given relation. */
module Ordering {

  /** `le` is a total preorder: any two rows compare, and comparisons chain. */
  ghost predicate TotalPreorder<T(!new)>(le: (T, T) -> bool)
  {
    && (forall a, b :: le(a, b) || le(b, a))
    && (forall a, b, c :: le(a, b) && le(b, c) ==> le(a, c))
  }

  predicate Sorted<T>(s: seq<T>, le: (T, T) -> bool)
  {
    forall i, j | 0 <= i < j < |s| :: le(s[i], s[j])
  }

  function Insert<T>(x: T, s: seq<T>, le: (T, T) -> bool): (r: seq<T>)
    ensures multiset(r) == multiset(s) + multiset{x}
  {
    if s == [] then [x]
    else if le(x, s[0]) then [x] + s
    else
      assert s == [s[0]] + s[1..];
      [s[0]] + Insert(x, s[1..], le)
  }

  /** Insertion sort. */
  function Sort<T>(s: seq<T>, le: (T, T) -> bool): (r: seq<T>)
    ensures multiset(r) == multiset(s)
  {
    if s == [] then []
    else
      assert s == [s[0]] + s[1..];
      Insert(s[0], Sort(s[1..], le), le)
  }

  lemma {:induction false} InsertSorted<T(!new)>(x: T, s: seq<T>, le: (T, T) -> bool)
    requires TotalPreorder(le) && Sorted(s, le)
    ensures Sorted(Insert(x, s, le), le)
  {
    if s != [] && !le(x, s[0]) {
      var tail := Insert(x, s[1..], le);
      InsertSorted(x, s[1..], le);
      assert le(s[0], x);
      forall y | y in tail ensures le(s[0], y) {
        assert y in multiset(tail);
        if y != x {
          assert y in multiset(s[1..]);
          var j :| 0 <= j < |s[1..]| && s[1..][j] == y;
          assert s[j + 1] == y;
        }
      }
      var r := Insert(x, s, le);
      assert r == [s[0]] + tail;
      forall i, j | 0 <= i < j < |r| ensures le(r[i], r[j]) {
        if i == 0 {
          assert r[j] == tail[j - 1];
          assert r[j] in tail;
        } else {
          assert r[i] == tail[i - 1] && r[j] == tail[j - 1];
        }
      }
    }
  }

  lemma {:induction false} SortSorted<T(!new)>(s: seq<T>, le: (T, T) -> bool)
    requires TotalPreorder(le)
    ensures Sorted(Sort(s, le), le)
  {
    if s != [] {
      SortSorted(s[1..], le);
      InsertSorted(s[0], Sort(s[1..], le), le);
    }
  }

  /** The elements of a finite set, in some order. */
  ghost function SeqOf<T(!new)>(rows: set<T>): (r: seq<T>)
    ensures |r| == |rows|
    ensures forall x :: x in r <==> x in rows
  {
    if rows == {} then []
    else
      var x :| x in rows;
      [x] + SeqOf(rows - {x})
  }

  /** The rows of a set, each once, sorted by `le`. */
  ghost function Listing<T(!new)>(rows: set<T>, le: (T, T) -> bool): (r: seq<T>)
    requires TotalPreorder(le)
    ensures Sorted(r, le)
    ensures |r| == |rows|
    ensures forall x :: x in r <==> x in rows
  {
    var s := SeqOf(rows);
    SortSorted(s, le);
    var r := Sort(s, le);
    assert forall x :: x in r <==> x in multiset(s);
    r
  }

  /** A map that is one-to-one on `keys` and onto `image` makes the two the
      same size: the size of a `select` over rows with distinct keys. */
  lemma {:induction false} ImageCount<K(!new), V(!new)>(keys: set<K>, image: set<V>, f: K --> V)
    requires forall k | k in keys :: f.requires(k) && f(k) in image
    requires forall v | v in image :: exists k | k in keys :: f.requires(k) && f(k) == v
    requires forall a, b | a in keys && b in keys && f(a) == f(b) :: a == b
    ensures |image| == |keys|
  {
    if keys != {} {
      var k :| k in keys;
      forall v | v in image - {f(k)} ensures exists j | j in keys - {k} :: f.requires(j) && f(j) == v {
        var j :| j in keys && f.requires(j) && f(j) == v;
        assert j != k;
      }
      ImageCount(keys - {k}, image - {f(k)}, f);
    } else {
      assert image == {};
    }
  }
}
