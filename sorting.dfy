/**
 * The row order that `ORDER BY <text column> [DESC]` produces: an insertion sort
 * on a text key, proved sorted and a permutation of its input.
 */
module Sorting {
  import opened Text

  /** A row with key `a` may stand before one with key `b`: ascending, or descending when `desc`. */
  predicate InOrder(a: String, b: String, desc: bool) {
    if desc then LexLe(b, a) else LexLe(a, b)
  }

  lemma InOrderTotal(a: String, b: String, desc: bool)
    ensures InOrder(a, b, desc) || InOrder(b, a, desc)
  {
    LexLeTotal(a, b);
  }

  lemma InOrderTransitive(a: String, b: String, c: String, desc: bool)
    requires InOrder(a, b, desc) && InOrder(b, c, desc)
    ensures InOrder(a, c, desc)
  {
    if desc {
      LexLeTransitive(c, b, a);
    } else {
      LexLeTransitive(a, b, c);
    }
  }

  /** Every earlier row may stand before every later row. */
  ghost predicate SortedBy<T>(s: seq<T>, key: T -> String, desc: bool) {
    forall i, j :: 0 <= i < j < |s| ==> InOrder(key(s[i]), key(s[j]), desc)
  }

  /** Inserts `x` before the first row it may precede. */
  function Insert<T>(x: T, s: seq<T>, key: T -> String, desc: bool): seq<T>
  {
    if s == [] then [x]
    else if InOrder(key(x), key(s[0]), desc) then [x] + s
    else [s[0]] + Insert(x, s[1..], key, desc)
  }

  /** The rows of `s` in key order. */
  function Sort<T>(s: seq<T>, key: T -> String, desc: bool): seq<T>
  {
    if s == [] then [] else Insert(s[0], Sort(s[1..], key, desc), key, desc)
  }

  lemma {:induction false} InsertPermutes<T>(x: T, s: seq<T>, key: T -> String, desc: bool)
    ensures multiset(Insert(x, s, key, desc)) == multiset(s) + multiset{x}
  {
    if s != [] && !InOrder(key(x), key(s[0]), desc) {
      InsertPermutes(x, s[1..], key, desc);
      assert s == [s[0]] + s[1..];
    }
  }

  /** A row that may precede every row of a sorted sequence can be put in front of it. */
  lemma ConsSorted<T>(y: T, t: seq<T>, key: T -> String, desc: bool)
    requires SortedBy(t, key, desc)
    requires forall j :: 0 <= j < |t| ==> InOrder(key(y), key(t[j]), desc)
    ensures SortedBy([y] + t, key, desc)
  {
    var r := [y] + t;
    forall i, j | 0 <= i < j < |r| ensures InOrder(key(r[i]), key(r[j]), desc) {
      assert r[j] == t[j - 1];
      if i > 0 {
        assert r[i] == t[i - 1];
      }
    }
  }

  /** Every row of `s` may follow `y` when the first one may and `s` is sorted. */
  lemma HeadBoundsAll<T>(y: T, s: seq<T>, key: T -> String, desc: bool)
    requires SortedBy(s, key, desc) && s != [] && InOrder(key(y), key(s[0]), desc)
    ensures forall j :: 0 <= j < |s| ==> InOrder(key(y), key(s[j]), desc)
  {
    forall j | 0 < j < |s| ensures InOrder(key(y), key(s[j]), desc) {
      InOrderTransitive(key(y), key(s[0]), key(s[j]), desc);
    }
  }

  lemma {:induction false} InsertSorted<T>(x: T, s: seq<T>, key: T -> String, desc: bool)
    requires SortedBy(s, key, desc)
    ensures SortedBy(Insert(x, s, key, desc), key, desc)
  {
    if s == [] {
    } else if InOrder(key(x), key(s[0]), desc) {
      HeadBoundsAll(x, s, key, desc);
      ConsSorted(x, s, key, desc);
    } else {
      InOrderTotal(key(x), key(s[0]), desc);
      var t := Insert(x, s[1..], key, desc);
      InsertSorted(x, s[1..], key, desc);
      InsertPermutes(x, s[1..], key, desc);
      forall j | 0 <= j < |t| ensures InOrder(key(s[0]), key(t[j]), desc) {
        assert t[j] in multiset(t);
        if t[j] != x {
          assert t[j] in multiset(s[1..]);
          var k :| 0 <= k < |s[1..]| && s[1..][k] == t[j];
          assert s[k + 1] == t[j];
        }
      }
      ConsSorted(s[0], t, key, desc);
    }
  }

  /** `Sort` returns a sorted permutation of its input. */
  lemma {:induction false} SortCorrect<T>(s: seq<T>, key: T -> String, desc: bool)
    ensures SortedBy(Sort(s, key, desc), key, desc)
    ensures multiset(Sort(s, key, desc)) == multiset(s)
    ensures |Sort(s, key, desc)| == |s|
  {
    if s != [] {
      SortCorrect(s[1..], key, desc);
      InsertSorted(s[0], Sort(s[1..], key, desc), key, desc);
      InsertPermutes(s[0], Sort(s[1..], key, desc), key, desc);
      assert s == [s[0]] + s[1..];
      assert multiset(Sort(s, key, desc)) == multiset(s);
    }
  }
}
