/** SQL `ORDER BY` over a list of rows: the rows come back as a permutation of
    the input, sorted by a key. Keys are integer sequences compared
    lexicographically, so `ORDER BY a DESC, b ASC` becomes the key `[-a, b]`.
    Rows with equal keys may come back in any order, as in SQL; the contracts
    below promise nothing more than sortedness and permutation. */
module Ordering {

  /** Lexicographic order on integer keys; a proper prefix sorts first. */
  predicate LexLe(a: seq<int>, b: seq<int>)
    decreases |a|
  {
    |a| == 0 || (|b| > 0 && (a[0] < b[0] || (a[0] == b[0] && LexLe(a[1..], b[1..]))))
  }

  lemma {:induction false} LexLeTotal(a: seq<int>, b: seq<int>)
    ensures LexLe(a, b) || LexLe(b, a)
    decreases |a|
  {
    if |a| > 0 && |b| > 0 && a[0] == b[0] {
      LexLeTotal(a[1..], b[1..]);
    }
  }

  lemma {:induction false} LexLeTransitive(a: seq<int>, b: seq<int>, c: seq<int>)
    requires LexLe(a, b) && LexLe(b, c)
    ensures LexLe(a, c)
    decreases |a|
  {
    if |a| > 0 && a[0] == b[0] && b[0] == c[0] {
      LexLeTransitive(a[1..], b[1..], c[1..]);
    }
  }

  /** For two-component keys the order is "first component, then second". */
  lemma LexLePair(a0: int, a1: int, b0: int, b1: int)
    ensures LexLe([a0, a1], [b0, b1]) <==> a0 < b0 || (a0 == b0 && a1 <= b1)
  {
    assert [a0, a1][1..] == [a1];
    assert [b0, b1][1..] == [b1];
    assert [a1][1..] == [] && [b1][1..] == [];
    assert LexLe([a1], [b1]) <==> a1 <= b1;
  }

  /** For three-component keys: first, then second, then third. */
  lemma LexLeTriple(a0: int, a1: int, a2: int, b0: int, b1: int, b2: int)
    ensures LexLe([a0, a1, a2], [b0, b1, b2]) <==>
              a0 < b0 || (a0 == b0 && (a1 < b1 || (a1 == b1 && a2 <= b2)))
  {
    assert [a0, a1, a2][1..] == [a1, a2];
    assert [b0, b1, b2][1..] == [b1, b2];
    LexLePair(a1, a2, b1, b2);
  }

  ghost predicate SortedBy<T>(s: seq<T>, key: T -> seq<int>)
  {
    forall i, j :: 0 <= i < j < |s| ==> LexLe(key(s[i]), key(s[j]))
  }

  /** Inserts `x` into the sorted `s`, after every element whose key is smaller. */
  function Insert<T>(x: T, s: seq<T>, key: T -> seq<int>): (r: seq<T>)
    requires SortedBy(s, key)
    ensures SortedBy(r, key)
    ensures multiset(r) == multiset(s) + multiset{x}
    decreases |s|
  {
    if s == [] then
      [x]
    else if LexLe(key(x), key(s[0])) then
      InsertFrontSorted(x, s, key);
      [x] + s
    else
      var rest := Insert(x, s[1..], key);
      assert s == [s[0]] + s[1..];
      InsertBehindSorted(x, s, rest, key);
      [s[0]] + rest
  }

  lemma InsertFrontSorted<T>(x: T, s: seq<T>, key: T -> seq<int>)
    requires SortedBy(s, key) && s != [] && LexLe(key(x), key(s[0]))
    ensures SortedBy([x] + s, key)
  {
    var r := [x] + s;
    forall i, j | 0 <= i < j < |r| ensures LexLe(key(r[i]), key(r[j])) {
      if i == 0 && j > 1 {
        LexLeTransitive(key(x), key(s[0]), key(s[j - 1]));
      }
    }
  }

  lemma InsertBehindSorted<T>(x: T, s: seq<T>, rest: seq<T>, key: T -> seq<int>)
    requires SortedBy(s, key) && s != [] && !LexLe(key(x), key(s[0]))
    requires SortedBy(rest, key) && multiset(rest) == multiset(s[1..]) + multiset{x}
    ensures SortedBy([s[0]] + rest, key)
  {
    forall k | 0 <= k < |rest| ensures LexLe(key(s[0]), key(rest[k])) {
      assert rest[k] in multiset(rest);
      if rest[k] == x {
        LexLeTotal(key(x), key(s[0]));
      } else {
        assert rest[k] in multiset(s[1..]);
        var m :| 0 <= m < |s[1..]| && s[1..][m] == rest[k];
        assert s[m + 1] == rest[k];
      }
    }
    var r := [s[0]] + rest;
    forall i, j | 0 <= i < j < |r| ensures LexLe(key(r[i]), key(r[j])) {
      if i == 0 {
        assert r[j] == rest[j - 1];
      } else {
        assert r[i] == rest[i - 1] && r[j] == rest[j - 1];
      }
    }
  }

  /** `ORDER BY key`: a sorted permutation of `s` (insertion sort). */
  function SortBy<T>(s: seq<T>, key: T -> seq<int>): (r: seq<T>)
    ensures SortedBy(r, key)
    ensures multiset(r) == multiset(s)
    decreases |s|
  {
    if s == [] then []
    else
      assert s == [s[0]] + s[1..];
      Insert(s[0], SortBy(s[1..], key), key)
  }

  /** A sorted permutation holds exactly the rows it was given. */
  lemma SortByMembers<T>(s: seq<T>, key: T -> seq<int>, x: T)
    ensures x in SortBy(s, key) <==> x in s
  {
    var r := SortBy(s, key);
    assert x in r <==> x in multiset(r);
    assert x in s <==> x in multiset(s);
  }

  /** `LIMIT n` keeps rows of the result and no row more often than it
      occurs there. */
  lemma TakeKeepsRows<T>(s: seq<T>, n: nat)
    requires n <= |s|
    ensures multiset(s[..n]) <= multiset(s)
  {
    assert s == s[..n] + s[n..];
  }

  /** `LIMIT n` applied to a sorted result: every row left out sorts after
      every row kept. */
  lemma {:induction false} PrefixKeepsSmallest<T>(s: seq<T>, key: T -> seq<int>, n: nat, x: T)
    requires SortedBy(s, key) && n <= |s|
    requires x in s && x !in s[..n]
    ensures forall k :: 0 <= k < n ==> LexLe(key(s[k]), key(x))
  {
    var j :| 0 <= j < |s| && s[j] == x;
    forall k | 0 <= k < n ensures LexLe(key(s[k]), key(x)) {
      assert k < j;
    }
  }
}
