/**
  Total orders, sorting by one, and the order of a `BTreeMap`'s keys.

  Sorting is by insertion, which is stable, as `sort` and `sort_by_key` are. A
  sorted arrangement of a multiset is the only one, so sorting forgets the order
  it was given. Strings are ordered by code point, which is the order of their
  UTF-8 bytes, and `Keys` lists the keys of a map that way.
 */
module Ordering {

  ghost predicate TotalPreorder<T(!new)>(le: (T, T) -> bool) {
    && (forall x, y :: le(x, y) || le(y, x))
    && (forall x, y, z :: le(x, y) && le(y, z) ==> le(x, z))
  }

  ghost predicate TotalOrder<T(!new)>(le: (T, T) -> bool) {
    TotalPreorder(le) && forall x, y :: le(x, y) && le(y, x) ==> x == y
  }

  ghost predicate SortedBy<T(!new)>(le: (T, T) -> bool, s: seq<T>) {
    forall i, j | 0 <= i < j < |s| :: le(s[i], s[j])
  }

  function Insert<T>(le: (T, T) -> bool, x: T, s: seq<T>): seq<T> {
    if s == [] || le(x, s[0]) then [x] + s else [s[0]] + Insert(le, x, s[1..])
  }

  function Sort<T>(le: (T, T) -> bool, s: seq<T>): seq<T> {
    if s == [] then [] else Insert(le, s[0], Sort(le, s[1..]))
  }

  lemma {:induction false} InsertAdds<T>(le: (T, T) -> bool, x: T, s: seq<T>)
    ensures multiset(Insert(le, x, s)) == multiset(s) + multiset{x}
  {
    if s != [] && !le(x, s[0]) {
      InsertAdds(le, x, s[1..]);
      assert s == [s[0]] + s[1..];
    }
  }

  lemma {:induction false} SortPermutes<T>(le: (T, T) -> bool, s: seq<T>)
    ensures multiset(Sort(le, s)) == multiset(s)
  {
    if s != [] {
      SortPermutes(le, s[1..]);
      InsertAdds(le, s[0], Sort(le, s[1..]));
      assert s == [s[0]] + s[1..];
    }
  }

  lemma {:induction false} InsertSorted<T(!new)>(le: (T, T) -> bool, x: T, s: seq<T>)
    requires TotalPreorder(le) && SortedBy(le, s)
    ensures SortedBy(le, Insert(le, x, s))
  {
    if s != [] && !le(x, s[0]) {
      var rest := Insert(le, x, s[1..]);
      InsertSorted(le, x, s[1..]);
      InsertAdds(le, x, s[1..]);
      forall k | 0 <= k < |rest| ensures le(s[0], rest[k]) {
        assert rest[k] in multiset(rest);
        assert rest[k] == x || rest[k] in s[1..];
      }
    }
  }

  lemma {:induction false} SortSorts<T(!new)>(le: (T, T) -> bool, s: seq<T>)
    requires TotalPreorder(le)
    ensures SortedBy(le, Sort(le, s))
  {
    if s != [] {
      SortSorts(le, s[1..]);
      InsertSorted(le, s[0], Sort(le, s[1..]));
    }
  }

  lemma SortedHead<T(!new)>(le: (T, T) -> bool, s: seq<T>, x: T)
    requires SortedBy(le, s) && TotalOrder(le) && x in s
    ensures le(s[0], x)
  {
    var i :| 0 <= i < |s| && s[i] == x;
    assert i == 0 || le(s[0], s[i]);
    assert le(s[0], s[0]);
  }

  lemma TailMultiset<T>(s: seq<T>)
    requires s != []
    ensures multiset(s[1..]) == multiset(s) - multiset{s[0]}
  {
    assert s == [s[0]] + s[1..];
  }

  /** A sorted arrangement is the only one. */
  lemma {:induction false} SortedIsUnique<T(!new)>(le: (T, T) -> bool, s: seq<T>, t: seq<T>)
    requires TotalOrder(le) && SortedBy(le, s) && SortedBy(le, t)
    requires multiset(s) == multiset(t)
    ensures s == t
    decreases |s|
  {
    assert |s| == |multiset(s)| == |multiset(t)| == |t|;
    if s != [] {
      assert s[0] in multiset(t) && t[0] in multiset(s);
      SortedHead(le, s, t[0]);
      SortedHead(le, t, s[0]);
      TailMultiset(s);
      TailMultiset(t);
      SortedIsUnique(le, s[1..], t[1..]);
      assert s == [s[0]] + s[1..] && t == [t[0]] + t[1..];
    }
  }

  /** Sorting forgets the order it was given. */
  lemma SortForgetsOrder<T(!new)>(le: (T, T) -> bool, s: seq<T>, t: seq<T>)
    requires TotalOrder(le) && multiset(s) == multiset(t)
    ensures Sort(le, s) == Sort(le, t)
  {
    SortPermutes(le, s);
    SortPermutes(le, t);
    SortSorts(le, s);
    SortSorts(le, t);
    SortedIsUnique(le, Sort(le, s), Sort(le, t));
  }

  /// Strings

  /** Order of strings by code point, which is the order of their UTF-8 bytes. */
  predicate StringLe(a: string, b: string) {
    if a == [] then true
    else if b == [] then false
    else if a[0] != b[0] then a[0] < b[0]
    else StringLe(a[1..], b[1..])
  }

  lemma {:induction false} StringLeTotal(a: string, b: string)
    ensures StringLe(a, b) || StringLe(b, a)
    ensures StringLe(a, b) && StringLe(b, a) ==> a == b
  {
    if a != [] && b != [] && a[0] == b[0] {
      StringLeTotal(a[1..], b[1..]);
      assert a == [a[0]] + a[1..] && b == [b[0]] + b[1..];
    }
  }

  lemma {:induction false} StringLeTransitive(a: string, b: string, c: string)
    requires StringLe(a, b) && StringLe(b, c)
    ensures StringLe(a, c)
  {
    if a != [] && a[0] == b[0] == c[0] {
      StringLeTransitive(a[1..], b[1..], c[1..]);
    }
  }

  /// The keys of a map, in order

  predicate LeastKey(s: set<string>, m: string) {
    m in s && forall x | x in s :: StringLe(m, x)
  }

  lemma {:induction false} LeastKeyExists(s: set<string>)
    requires s != {}
    ensures exists m :: LeastKey(s, m)
    decreases |s|
  {
    var x :| x in s;
    StringLeTotal(x, x);
    if s == {x} {
      assert LeastKey(s, x);
    } else {
      var rest := s - {x};
      assert s == rest + {x} && rest != {};
      LeastKeyExists(rest);
      var m :| LeastKey(rest, m);
      StringLeTotal(x, m);
      forall y | y in s && StringLe(x, m) ensures StringLe(x, y) {
        if y in rest {
          StringLeTransitive(x, m, y);
        }
      }
      assert LeastKey(s, x) || LeastKey(s, m);
    }
  }

  lemma LeastKeyIsOne(s: set<string>)
    ensures forall m, n | LeastKey(s, m) && LeastKey(s, n) :: m == n
  {
    forall m, n | LeastKey(s, m) && LeastKey(s, n) ensures m == n {
      StringLeTotal(m, n);
    }
  }

  function Keys(s: set<string>): (keys: seq<string>)
    ensures |keys| == |s|
    ensures forall k :: k in keys <==> k in s
    ensures forall i, j | 0 <= i < j < |keys| :: keys[i] != keys[j] && StringLe(keys[i], keys[j])
    decreases |s|
  {
    if s == {} then []
    else
      LeastKeyExists(s);
      LeastKeyIsOne(s);
      var m :| m in s && LeastKey(s, m);
      [m] + Keys(s - {m})
  }
}
