/**
 * Order-preserving mapping, filtering and sorting by an integer key, the list
 * operations the query pipelines (`map`, `where`, `order`, `sort_by`, `filter`) use.
 */
module Lists {

  /** `map`: `f` applied to each element, in order. */
  function Map<A, B>(s: seq<A>, f: A -> B): (r: seq<B>)
    ensures |r| == |s| && forall i :: 0 <= i < |s| ==> r[i] == f(s[i])
  {
    seq(|s|, i requires 0 <= i < |s| => f(s[i]))
  }

  /** The elements satisfying `p`, in their original order. */
  function Filter<T(!new)>(s: seq<T>, p: T -> bool): (r: seq<T>)
    ensures |r| <= |s|
    ensures forall x :: x in r <==> x in s && p(x)
    ensures multiset(r) <= multiset(s)
  {
    if s == [] then []
    else
      assert s == [s[0]] + s[1..];
      (if p(s[0]) then [s[0]] else []) + Filter(s[1..], p)
  }

  /** Filtering keeps every copy of a qualifying element and no copy of any other. */
  lemma {:induction false} FilterCount<T(!new)>(s: seq<T>, p: T -> bool, x: T)
    ensures multiset(Filter(s, p))[x] == if p(x) then multiset(s)[x] else 0
  {
    if s != [] {
      FilterCount(s[1..], p, x);
      assert s == [s[0]] + s[1..];
    }
  }

  /** Filtering distributes over concatenation: relative order is kept. */
  lemma {:induction false} FilterAppend<T(!new)>(a: seq<T>, b: seq<T>, p: T -> bool)
    ensures Filter(a + b, p) == Filter(a, p) + Filter(b, p)
  {
    if a != [] {
      assert (a + b)[0] == a[0];
      assert (a + b)[1..] == a[1..] + b;
      FilterAppend(a[1..], b, p);
    } else {
      assert a + b == b;
    }
  }

  /** Filtering keeps everything when every element qualifies. */
  lemma {:induction false} FilterAll<T(!new)>(s: seq<T>, p: T -> bool)
    requires forall x :: x in s ==> p(x)
    ensures Filter(s, p) == s
  {
    if s != [] {
      FilterAll(s[1..], p);
    }
  }

  predicate SortedBy<T>(s: seq<T>, key: T -> int) {
    forall i, j :: 0 <= i < j < |s| ==> key(s[i]) <= key(s[j])
  }

  /** A sorted list stays sorted under filtering. */
  lemma {:induction false} FilterSorted<T(!new)>(s: seq<T>, p: T -> bool, key: T -> int)
    requires SortedBy(s, key)
    ensures SortedBy(Filter(s, p), key)
  {
    if s != [] {
      FilterSorted(s[1..], p, key);
      var rest := Filter(s[1..], p);
      forall x | x in rest
        ensures key(s[0]) <= key(x)
      {
        var j :| 0 <= j < |s[1..]| && s[1..][j] == x;
        assert s[j + 1] == x;
      }
    }
  }

  /** `x` placed before the first element whose key is not smaller, so ahead of any equal keys. */
  function Insert<T>(x: T, s: seq<T>, key: T -> int): (r: seq<T>)
    requires SortedBy(s, key)
    ensures SortedBy(r, key)
    ensures multiset(r) == multiset(s) + multiset{x}
  {
    if s == [] then [x]
    else if key(x) <= key(s[0]) then [x] + s
    else
      var rest := Insert(x, s[1..], key);
      assert multiset(s) == multiset{s[0]} + multiset(s[1..]) by {
        assert s == [s[0]] + s[1..];
      }
      forall y | y in rest
        ensures key(s[0]) <= key(y)
      {
        assert y in multiset(rest);
        if y != x {
          assert y in multiset(s[1..]);
          var j :| 0 <= j < |s[1..]| && s[1..][j] == y;
          assert s[j + 1] == y;
        }
      }
      [s[0]] + rest
  }

  /** The multiset of a non-empty list splits off its head. */
  lemma MultisetHead<T>(s: seq<T>)
    requires s != []
    ensures multiset(s) == multiset{s[0]} + multiset(s[1..])
  {
    assert s == [s[0]] + s[1..];
  }

  /** Two lists with the same multiset have the same length and the same elements. */
  lemma SameMultiset<T>(a: seq<T>, b: seq<T>)
    requires multiset(a) == multiset(b)
    ensures |a| == |b| && forall x :: x in a <==> x in b
  {
    assert |a| == |multiset(a)|;
    forall x
      ensures x in a <==> x in b
    {
      assert x in a <==> x in multiset(a);
      assert x in b <==> x in multiset(b);
    }
  }

  /** A stable insertion sort by `key`: sorted, and a permutation of the input. */
  function SortBy<T(!new)>(s: seq<T>, key: T -> int): (r: seq<T>)
    ensures SortedBy(r, key)
    ensures multiset(r) == multiset(s)
    ensures |r| == |s|
    ensures forall x :: x in r <==> x in s
  {
    if s == [] then []
    else
      var rest := SortBy(s[1..], key);
      var r := Insert(s[0], rest, key);
      MultisetHead(s);
      SameMultiset(r, s);
      r
  }

  /** Holds of the elements whose key is `c`. */
  function HasKey<T>(key: T -> int, c: int): T -> bool {
    y => key(y) == c
  }

  /** Filtering a list with a given head. */
  lemma FilterCons<T(!new)>(x: T, s: seq<T>, p: T -> bool)
    ensures Filter([x] + s, p) == (if p(x) then [x] else []) + Filter(s, p)
  {
    assert ([x] + s)[0] == x && ([x] + s)[1..] == s;
  }

  /** Moving an empty piece past another. */
  lemma Regroup<T>(a: seq<T>, b: seq<T>, c: seq<T>)
    requires a == []
    ensures a + (b + c) == b + (a + c) && b + (a + c) == b + c
  {
  }

  /** Filtering a non-empty list, one step. */
  lemma FilterHead<T(!new)>(s: seq<T>, p: T -> bool)
    requires s != []
    ensures Filter(s, p) == (if p(s[0]) then [s[0]] else []) + Filter(s[1..], p)
  {
  }

  lemma InsertAtHead<T>(x: T, s: seq<T>, key: T -> int)
    requires SortedBy(s, key) && (s == [] || key(x) <= key(s[0]))
    ensures Insert(x, s, key) == [x] + s
  {
  }

  lemma InsertPastHead<T>(x: T, s: seq<T>, key: T -> int)
    requires SortedBy(s, key) && s != [] && key(x) > key(s[0])
    ensures SortedBy(s[1..], key)
    ensures Insert(x, s, key) == [s[0]] + Insert(x, s[1..], key)
  {
  }

  /** Inserting `x` puts it in front of the elements sharing its key and moves no other element of that key. */
  lemma {:induction false} FilterInsert<T(!new)>(x: T, s: seq<T>, key: T -> int, c: int)
    requires SortedBy(s, key)
    ensures Filter(Insert(x, s, key), HasKey(key, c)) ==
      (if key(x) == c then [x] else []) + Filter(s, HasKey(key, c))
  {
    var p := HasKey(key, c);
    var hx: seq<T> := if key(x) == c then [x] else [];
    assert p(x) == (key(x) == c);
    if s != [] && key(x) > key(s[0]) {
      var rest := s[1..];
      InsertPastHead(x, s, key);
      var ins := Insert(x, rest, key);
      FilterInsert(x, rest, key, c);
      assert Filter(ins, p) == hx + Filter(rest, p);
      FilterCons(s[0], ins, p);
      FilterHead(s, p);
      var h0: seq<T> := if p(s[0]) then [s[0]] else [];
      assert Filter(s, p) == h0 + Filter(rest, p);
      assert Filter(Insert(x, s, key), p) == h0 + (hx + Filter(rest, p));
      if key(x) == c {
        assert !p(s[0]);
        Regroup(h0, hx, Filter(rest, p));
      } else {
        Regroup(hx, h0, Filter(rest, p));
      }
    } else {
      InsertAtHead(x, s, key);
      FilterCons(x, s, p);
    }
  }

  /** The sort is stable: the elements of any one key keep their input order. */
  lemma {:induction false} SortByStable<T(!new)>(s: seq<T>, key: T -> int, c: int)
    ensures Filter(SortBy(s, key), HasKey(key, c)) == Filter(s, HasKey(key, c))
  {
    if s != [] {
      SortByStable(s[1..], key, c);
      FilterInsert(s[0], SortBy(s[1..], key), key, c);
    }
  }
}
