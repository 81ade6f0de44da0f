/**
  Sequences without repeats, in first-occurrence order.

  `Dedup` keeps each element where it first occurs. It is the result of the loop
  that remembers in a set what it has met, and it is described without that loop:
  the same elements, none twice, each before another exactly when it came first.
 */
module Sequences {

  predicate Distinct<T(==)>(s: seq<T>) {
    forall i, j | 0 <= i < j < |s| :: s[i] != s[j]
  }

  /** Each element kept where it first occurs. */
  function Dedup<T(==)>(s: seq<T>): seq<T> {
    if s == [] then []
    else
      var kept := Dedup(s[..|s| - 1]);
      if s[|s| - 1] in s[..|s| - 1] then kept else kept + [s[|s| - 1]]
  }

  /** `x` occurs in `s` before any `y` does. */
  ghost predicate FirstBefore<T>(s: seq<T>, x: T, y: T) {
    exists i | 0 <= i < |s| :: s[i] == x && y !in s[..i + 1]
  }

  lemma {:induction false} DedupElements<T>(s: seq<T>, x: T)
    ensures x in Dedup(s) <==> x in s
  {
    if s != [] {
      DedupElements(s[..|s| - 1], x);
      assert s == s[..|s| - 1] + [s[|s| - 1]];
    }
  }

  lemma {:induction false} DedupIsFirstOccurrences<T>(s: seq<T>)
    ensures Distinct(Dedup(s))
    ensures forall i, j | 0 <= i < j < |Dedup(s)| :: FirstBefore(s, Dedup(s)[i], Dedup(s)[j])
  {
    if s != [] {
      var init, last := s[..|s| - 1], s[|s| - 1];
      DedupIsFirstOccurrences(init);
      var d, before := Dedup(s), Dedup(init);
      forall i, j | 0 <= i < j < |d| ensures d[i] != d[j] && FirstBefore(s, d[i], d[j]) {
        assert d[i] == before[i] && before[i] in before;
        DedupElements(init, d[i]);
        if j < |before| {
          FirstBeforeStill(s, d[i], d[j]);
        } else {
          LastComesLast(s, d[i]);
        }
      }
    }
  }

  lemma FirstBeforeStill<T>(s: seq<T>, x: T, y: T)
    requires s != [] && FirstBefore(s[..|s| - 1], x, y)
    ensures FirstBefore(s, x, y)
  {
    var init := s[..|s| - 1];
    var k :| 0 <= k < |init| && init[k] == x && y !in init[..k + 1];
    assert s[..k + 1] == init[..k + 1] && s[k] == x;
  }

  lemma LastComesLast<T>(s: seq<T>, x: T)
    requires s != [] && x in s[..|s| - 1] && s[|s| - 1] !in s[..|s| - 1]
    ensures x != s[|s| - 1] && FirstBefore(s, x, s[|s| - 1])
  {
    var init := s[..|s| - 1];
    var k :| 0 <= k < |init| && init[k] == x;
    assert s[..k + 1] == init[..k + 1] && s[k] == x;
  }

  lemma {:induction false} DedupOfDistinct<T>(s: seq<T>)
    requires Distinct(s)
    ensures Dedup(s) == s
  {
    if s != [] {
      DedupOfDistinct(s[..|s| - 1]);
    }
  }

  /** Elements seen before add nothing. */
  lemma {:induction false} DedupAbsorbs<T>(s: seq<T>, more: seq<T>)
    requires forall x | x in more :: x in s
    ensures Dedup(s + more) == Dedup(s)
    decreases |more|
  {
    if more == [] {
      assert s + more == s;
    } else {
      var init := more[..|more| - 1];
      assert (s + more)[..|s + more| - 1] == s + init;
      assert more[|more| - 1] in s;
      DedupAbsorbs(s, init);
    }
  }

  lemma {:induction false} DistinctWithin<T>(s: seq<T>, t: seq<T>)
    requires Distinct(s) && forall x | x in s :: x in t
    ensures |s| <= |t|
  {
    if s != [] {
      var last := s[|s| - 1];
      assert last in s && last in t;
      var k :| 0 <= k < |t| && t[k] == last;
      var rest := t[..k] + t[k + 1..];
      forall x | x in s[..|s| - 1] ensures x in rest {
        assert x in s && x in t;
        var m :| 0 <= m < |t| && t[m] == x;
        assert m != k;
        assert if m < k then rest[m] == x else rest[m - 1] == x;
      }
      DistinctWithin(s[..|s| - 1], rest);
    }
  }

  lemma {:induction false} DistinctCount<T>(s: seq<T>)
    requires Distinct(s)
    ensures |set x | x in s| == |s|
  {
    if s != [] {
      var init, last := s[..|s| - 1], s[|s| - 1];
      DistinctCount(init);
      assert s == init + [last];
      assert (set x | x in s) == (set x | x in init) + {last};
    }
  }

  /** The loop that keeps what a set of seen elements has not met yet. */
  method KeepFirst<T(==)>(s: seq<T>) returns (out: seq<T>)
    ensures out == Dedup(s)
  {
    var seen: set<T> := {};
    out := [];
    for i := 0 to |s|
      invariant out == Dedup(s[..i])
      invariant seen == set x | x in s[..i]
    {
      assert s[..i + 1][..i] == s[..i];
      if s[i] !in seen {
        seen := seen + {s[i]};
        out := out + [s[i]];
      }
      assert s[..i + 1] == s[..i] + [s[i]];
    }
    assert s[..|s|] == s;
  }
}
