/** The "did you mean" suggestion of cli/src/io/nix.rs: a two-row edit distance and a bounded search. */
module EditDistance {
  import opened Prelude

  // `Distance` is the textbook recursion, the reference the rows are proved
  // against. Its meaning is given independently: the least number of
  // single-character edits that lead from one string to the other.

  function Min(x: nat, y: nat): nat { if x <= y then x else y }

  function Differ(x: char, y: char): nat { if x == y then 0 else 1 }

  function Init<T>(s: seq<T>): seq<T>
    requires s != []
  {
    s[..|s| - 1]
  }

  function Last<T>(s: seq<T>): T
    requires s != []
  {
    s[|s| - 1]
  }

  /** The Levenshtein distance, by recursion on the two last characters. */
  function Distance(a: string, b: string): nat
    decreases |a| + |b|
  {
    if a == [] then |b|
    else if b == [] then |a|
    else Min(Distance(Init(a), Init(b)) + Differ(Last(a), Last(b)),
             Min(Distance(Init(a), b), Distance(a, Init(b))) + 1)
  }

  /// The two-row dynamic programme

  /** The first `n` cells of a row hold the distances from `a` to the prefixes of `b`. */
  ghost predicate Row(row: seq<nat>, n: nat, a: string, b: string) {
    n <= |row| == |b| + 1 && forall j | 0 <= j < n :: row[j] == Distance(a, b[..j])
  }

  /** One more cell of the row for `before + [x]`, from its left neighbour and the row for `before`. */
  lemma NextCell(previous: seq<nat>, current: seq<nat>, j: nat, before: string, x: char, b: string)
    requires j < |b|
    requires Row(previous, |b| + 1, before, b) && Row(current, j + 1, before + [x], b)
    ensures Row(current[j + 1 := Min(Min(previous[j] + Differ(x, b[j]), previous[j + 1] + 1), current[j] + 1)],
                j + 2, before + [x], b)
  {
    assert Init(before + [x]) == before && Init(b[..j + 1]) == b[..j];
  }

  lemma FirstRow(row: seq<nat>, b: string)
    requires |row| == |b| + 1 && forall j | 0 <= j <= |b| :: row[j] == j
    ensures Row(row, |b| + 1, [], b)
  {}

  lemma FirstCell(row: seq<nat>, a: string, b: string)
    requires |row| == |b| + 1 && row[0] == |a|
    ensures Row(row, 1, a, b)
  {
    assert b[..0] == [];
  }

  method EditDistance(a: string, b: string) returns (distance: nat)
    ensures distance == Distance(a, b)
  {
    var previous := new nat[|b| + 1](j => j);
    var current := new nat[|b| + 1](_ => 0);
    FirstRow(previous[..], b);
    for i := 0 to |a|
      invariant previous != current && fresh(previous) && fresh(current)
      invariant previous.Length == current.Length == |b| + 1
      invariant Row(previous[..], |b| + 1, a[..i], b)
    {
      ghost var before, row := a[..i], previous[..];
      assert a[..i + 1] == before + [a[i]];
      current[0] := i + 1;
      FirstCell(current[..], before + [a[i]], b);
      for j := 0 to |b|
        invariant previous[..] == row
        invariant Row(current[..], j + 1, before + [a[i]], b)
      {
        var substitution := previous[j] + Differ(a[i], b[j]);
        NextCell(row, current[..], j, before, a[i], b);
        current[j + 1] := Min(Min(substitution, previous[j + 1] + 1), current[j] + 1);
      }
      previous, current := current, previous;
    }
    assert a[..|a|] == a && b[..|b|] == b;
    distance := previous[|b|];
  }

  /// Metric laws

  lemma {:induction false} DistanceToSelf(a: string)
    ensures Distance(a, a) == 0
  {
    if a != [] {
      DistanceToSelf(Init(a));
    }
  }

  lemma {:induction false} LengthGap(a: string, b: string)
    ensures |a| - |b| <= Distance(a, b)
    ensures |b| - |a| <= Distance(a, b)
    decreases |a| + |b|
  {
    if a != [] && b != [] {
      LengthGap(Init(a), Init(b));
      LengthGap(Init(a), b);
      LengthGap(a, Init(b));
    }
  }

  lemma {:induction false} ZeroMeansEqual(a: string, b: string)
    ensures Distance(a, b) == 0 <==> a == b
    decreases |a| + |b|
  {
    DistanceToSelf(a);
    if a != [] && b != [] && Distance(a, b) == 0 {
      ZeroMeansEqual(Init(a), Init(b));
      assert a == Init(a) + [Last(a)] && b == Init(b) + [Last(b)];
    }
  }

  lemma {:induction false} Symmetric(a: string, b: string)
    ensures Distance(a, b) == Distance(b, a)
    decreases |a| + |b|
  {
    if a != [] && b != [] {
      Symmetric(Init(a), Init(b));
      Symmetric(Init(a), b);
      Symmetric(a, Init(b));
    }
  }

  lemma {:induction false} Triangle(a: string, b: string, c: string)
    ensures Distance(a, c) <= Distance(a, b) + Distance(b, c)
    decreases |a| + |b| + |c|
  {
    LengthGap(a, b);
    LengthGap(b, c);
    if a == [] || c == [] {
    } else if b == [] {
      DistanceAtMost(a, c);
    } else if Distance(a, b) == Distance(Init(a), b) + 1 {
      Triangle(Init(a), b, c);
    } else if Distance(b, c) == Distance(b, Init(c)) + 1 {
      Triangle(a, b, Init(c));
    } else {
      Triangle(Init(a), Init(b), Init(c));
      Triangle(Init(a), Init(b), c);
      Triangle(a, Init(b), Init(c));
      Triangle(a, Init(b), c);
    }
  }

  lemma {:induction false} DistanceAtMost(a: string, b: string)
    ensures Distance(a, b) <= |a| + |b|
    decreases |a| + |b|
  {
    if a != [] && b != [] {
      DistanceAtMost(Init(a), b);
    }
  }

  /// Optimality over edit scripts

  ghost predicate Inserts(s: string, t: string, i: nat, c: char) {
    i <= |s| && t == s[..i] + [c] + s[i..]
  }

  ghost predicate Substitutes(s: string, t: string, i: nat, c: char) {
    i < |s| && t == s[i := c]
  }

  /** One character inserted, deleted or replaced, anywhere in the string. */
  ghost predicate OneEdit(s: string, t: string) {
    || (exists i, c :: Inserts(s, t, i, c))
    || (exists i, c :: Inserts(t, s, i, c))
    || (exists i, c :: Substitutes(s, t, i, c))
  }

  /** A script: every string on the way from `a` to `b`, one edit apart. */
  ghost predicate IsScript(script: seq<string>, a: string, b: string) {
    && script != []
    && script[0] == a
    && Last(script) == b
    && forall i | 0 < i < |script| :: OneEdit(script[i - 1], script[i])
  }

  lemma {:induction false} InsertionCostsOne(s: string, i: nat, c: char)
    requires i <= |s|
    ensures Distance(s, s[..i] + [c] + s[i..]) <= 1
    decreases |s|
  {
    var t := s[..i] + [c] + s[i..];
    if i == |s| {
      assert Init(t) == s;
      DistanceToSelf(s);
    } else {
      assert Init(t) == Init(s)[..i] + [c] + Init(s)[i..];
      InsertionCostsOne(Init(s), i, c);
    }
  }

  lemma {:induction false} SubstitutionCostsOne(s: string, i: nat, c: char)
    requires i < |s|
    ensures Distance(s, s[i := c]) <= 1
    decreases |s|
  {
    var t := s[i := c];
    if i == |s| - 1 {
      assert Init(t) == Init(s);
      DistanceToSelf(Init(s));
    } else {
      assert Init(t) == Init(s)[i := c];
      SubstitutionCostsOne(Init(s), i, c);
    }
  }

  lemma EditCostsOne(s: string, t: string)
    requires OneEdit(s, t)
    ensures Distance(s, t) <= 1
  {
    if i, c :| Inserts(s, t, i, c) {
      InsertionCostsOne(s, i, c);
    } else if i, c :| Inserts(t, s, i, c) {
      InsertionCostsOne(t, i, c);
      Symmetric(s, t);
    } else {
      var i, c :| Substitutes(s, t, i, c);
      SubstitutionCostsOne(s, i, c);
    }
  }

  /** No script is shorter than the distance. */
  lemma {:induction false} NoShorterScript(script: seq<string>, a: string, b: string)
    requires IsScript(script, a, b)
    ensures Distance(a, b) <= |script| - 1
    decreases |script|
  {
    if |script| == 1 {
      DistanceToSelf(a);
    } else {
      var before := Init(script);
      var c := Last(before);
      NoShorterScript(before, a, c);
      assert OneEdit(script[|script| - 2], script[|script| - 1]);
      EditCostsOne(c, b);
      Triangle(a, c, b);
    }
  }

  /** The same script carried out in front of one more character. */
  ghost function AppendToEach(script: seq<string>, c: char): (r: seq<string>)
  {
    seq(|script|, i requires 0 <= i < |script| => script[i] + [c])
  }

  lemma EditBeforeSuffix(s: string, t: string, c: char)
    requires OneEdit(s, t)
    ensures OneEdit(s + [c], t + [c])
  {
    if i, d :| Inserts(s, t, i, d) {
      assert Inserts(s + [c], t + [c], i, d);
    } else if i, d :| Inserts(t, s, i, d) {
      assert Inserts(t + [c], s + [c], i, d);
    } else {
      var i, d :| Substitutes(s, t, i, d);
      assert Substitutes(s + [c], t + [c], i, d);
    }
  }

  lemma ScriptBeforeSuffix(script: seq<string>, a: string, b: string, c: char)
    requires IsScript(script, a, b)
    ensures IsScript(AppendToEach(script, c), a + [c], b + [c])
  {
    var r := AppendToEach(script, c);
    forall i | 0 < i < |r| ensures OneEdit(r[i - 1], r[i]) {
      EditBeforeSuffix(script[i - 1], script[i], c);
    }
  }

  lemma ExtendScript(script: seq<string>, a: string, b: string, c: string)
    requires IsScript(script, a, b) && OneEdit(b, c)
    ensures IsScript(script + [c], a, c)
  {}

  lemma PrependToScript(a: string, script: seq<string>, b: string, c: string)
    requires OneEdit(a, b) && IsScript(script, b, c)
    ensures IsScript([a] + script, a, c)
  {}

  lemma LastCharacterEdits(b: string, x: char)
    requires b != []
    ensures OneEdit(Init(b), b) && OneEdit(b, Init(b))
    ensures x != Last(b) ==> OneEdit(Init(b) + [x], b)
  {
    assert Inserts(Init(b), b, |b| - 1, Last(b));
    if x != Last(b) {
      assert Substitutes(Init(b) + [x], b, |b| - 1, Last(b));
    }
  }

  lemma LastReplaced(shorter: seq<string>, a: string, b: string) returns (script: seq<string>)
    requires a != [] && b != [] && IsScript(shorter, Init(a), Init(b))
    ensures IsScript(script, a, b) && |script| == |shorter| + Differ(Last(a), Last(b))
  {
    var x, y := Last(a), Last(b);
    script := AppendToEach(shorter, x);
    ScriptBeforeSuffix(shorter, Init(a), Init(b), x);
    assert a == Init(a) + [x] && b == Init(b) + [y];
    if x != y {
      LastCharacterEdits(b, x);
      ExtendScript(script, a, Init(b) + [x], b);
      script := script + [b];
    }
  }

  /** A script of exactly the distance exists. */
  lemma {:induction false} ShortestScript(a: string, b: string) returns (script: seq<string>)
    ensures IsScript(script, a, b)
    ensures |script| - 1 == Distance(a, b)
    decreases |a| + |b|
  {
    if a == [] && b == [] {
      script := [a];
    } else if a == [] || (b != [] && Distance(a, b) == Distance(a, Init(b)) + 1) {
      script := ShortestScript(a, Init(b));
      LastCharacterEdits(b, Last(b));
      ExtendScript(script, a, Init(b), b);
      script := script + [b];
    } else if b == [] || Distance(a, b) == Distance(Init(a), b) + 1 {
      script := ShortestScript(Init(a), b);
      LastCharacterEdits(a, Last(a));
      PrependToScript(a, script, Init(a), b);
      script := [a] + script;
    } else {
      script := ShortestScript(Init(a), Init(b));
      script := LastReplaced(script, a, b);
    }
  }

  /** What the distance is: the length of a shortest edit script. */
  lemma DistanceIsLeastEdits(a: string, b: string, n: nat)
    ensures n == Distance(a, b) <==>
            && (exists script :: IsScript(script, a, b) && |script| - 1 == n)
            && (forall script | IsScript(script, a, b) :: n <= |script| - 1)
  {
    var best := ShortestScript(a, b);
    forall script | IsScript(script, a, b) ensures Distance(a, b) <= |script| - 1 {
      NoShorterScript(script, a, b);
    }
  }

  /// The suggestion

  /** Bytes a character takes in UTF-8, section 3 of RFC 3629. */
  function Utf8Width(c: char): nat {
    if c as int < 0x80 then 1
    else if c as int < 0x800 then 2
    else if c as int < 0x1_0000 then 3
    else 4
  }

  function Utf8Length(s: string): nat {
    if s == [] then 0 else Utf8Width(s[0]) + Utf8Length(s[1..])
  }

  /** How far a suggestion may be: a third of the needle's bytes rounded up, at least 2. */
  function Tolerance(needle: string): nat {
    var third := (Utf8Length(needle) + 2) / 3;
    if third < 2 then 2 else third
  }

  function Within(needle: string, haystack: seq<string>): seq<string> {
    if haystack == [] then []
    else if Distance(needle, haystack[0]) <= Tolerance(needle) then
      [haystack[0]] + Within(needle, haystack[1..])
    else Within(needle, haystack[1..])
  }

  /** The first element at least distance, as the iterator's minimum-by-key keeps the first of equals. */
  function FirstNearest(needle: string, candidates: seq<string>): string
    requires candidates != []
  {
    if |candidates| == 1 then candidates[0]
    else
      var rest := FirstNearest(needle, candidates[1..]);
      if Distance(needle, candidates[0]) <= Distance(needle, rest) then candidates[0] else rest
  }

  function Nearest(needle: string, haystack: seq<string>): Option<string> {
    var candidates := Within(needle, haystack);
    if candidates == [] then None else Some(FirstNearest(needle, candidates))
  }

  /** Index `i` holds the first candidate at minimum distance. */
  ghost predicate FirstMinimum(needle: string, candidates: seq<string>, i: nat) {
    && i < |candidates|
    && (forall j | 0 <= j < |candidates| :: Distance(needle, candidates[i]) <= Distance(needle, candidates[j]))
    && (forall j | 0 <= j < i :: Distance(needle, candidates[i]) < Distance(needle, candidates[j]))
  }

  lemma MinimumBehind(needle: string, haystack: seq<string>, i: nat)
    requires haystack != [] && FirstMinimum(needle, haystack[1..], i)
    requires Distance(needle, haystack[0]) > Distance(needle, haystack[1..][i])
    ensures FirstMinimum(needle, haystack, i + 1) && haystack[i + 1] == haystack[1..][i]
  {
    assert forall j | 0 < j < |haystack| :: haystack[j] == haystack[1..][j - 1];
  }

  lemma MinimumInFront(needle: string, haystack: seq<string>, i: nat)
    requires haystack != [] && FirstMinimum(needle, haystack[1..], i)
    requires Distance(needle, haystack[0]) <= Distance(needle, haystack[1..][i])
    ensures FirstMinimum(needle, haystack, 0)
  {
    assert forall j | 0 < j < |haystack| :: haystack[j] == haystack[1..][j - 1];
  }

  lemma MinimumAlone(needle: string, haystack: seq<string>)
    requires haystack != [] && Distance(needle, haystack[0]) <= Tolerance(needle)
    requires forall j | 0 <= j < |haystack[1..]| :: Distance(needle, haystack[1..][j]) > Tolerance(needle)
    ensures FirstMinimum(needle, haystack, 0)
  {
    assert forall j | 0 < j < |haystack| :: haystack[j] == haystack[1..][j - 1];
  }

  /** The suggestion among the rest, and what the first candidate makes of it. */
  lemma NearestNext(needle: string, haystack: seq<string>)
    requires haystack != []
    ensures var near, d := Nearest(needle, haystack[1..]), Distance(needle, haystack[0]);
            Nearest(needle, haystack) ==
            if d > Tolerance(needle) then near
            else if near.None? || d <= Distance(needle, near.value) then Some(haystack[0])
            else near
  {
    var first, rest := haystack[0], Within(needle, haystack[1..]);
    assert ([first] + rest)[1..] == rest;
  }

  /** More than two edits away, and one edit less is still a third of the needle's bytes. */
  predicate TooFar(needle: string, d: nat) {
    d > 2 && 3 * (d - 1) >= Utf8Length(needle)
  }

  lemma BeyondTolerance(needle: string, d: nat)
    ensures d > Tolerance(needle) <==> TooFar(needle, d)
  {}

  /** How many code points so many bytes can tell: seven bits alone, or what the first byte has left and six in each other. */
  function Capacity(bytes: nat): nat
    requires 1 <= bytes <= 4
  {
    match bytes
    case 1 => 128
    case 2 => 32 * 64
    case 3 => 16 * 64 * 64
    case _ => 8 * 64 * 64 * 64
  }

  /** A character takes the fewest bytes that can hold it. */
  lemma WidthIsLeast(c: char)
    ensures 1 <= Utf8Width(c) <= 4 && (c as int) < Capacity(Utf8Width(c))
    ensures Utf8Width(c) > 1 ==> c as int >= Capacity(Utf8Width(c) - 1)
  {}

  /** A character is counted once to four times, and an ASCII one once. */
  lemma {:induction false} BytesOfCharacters(s: string)
    ensures |s| <= Utf8Length(s) <= 4 * |s|
    ensures (forall i | 0 <= i < |s| :: s[i] < 128 as char) ==> Utf8Length(s) == |s|
  {
    if s != [] {
      BytesOfCharacters(s[1..]);
    }
  }

  /**
    The suggestion is the first of the candidates nearest to what was asked for,
    none nearer; there is one exactly when some candidate is not too far.
   */
  lemma NearestIsFirstMinimum(needle: string, haystack: seq<string>)
    ensures Nearest(needle, haystack).None? <==>
            forall i | 0 <= i < |haystack| :: TooFar(needle, Distance(needle, haystack[i]))
    ensures Nearest(needle, haystack).Some? ==>
            exists i: nat :: && FirstMinimum(needle, haystack, i)
                             && haystack[i] == Nearest(needle, haystack).value
                             && !TooFar(needle, Distance(needle, haystack[i]))
  {
    NearestWithin(needle, haystack);
    forall d: nat ensures d > Tolerance(needle) <==> TooFar(needle, d) {
      BeyondTolerance(needle, d);
    }
  }

  lemma {:induction false} NearestWithin(needle: string, haystack: seq<string>)
    ensures Nearest(needle, haystack).None? <==>
            forall i | 0 <= i < |haystack| :: Distance(needle, haystack[i]) > Tolerance(needle)
    ensures Nearest(needle, haystack).Some? ==>
            exists i: nat :: && FirstMinimum(needle, haystack, i)
                             && haystack[i] == Nearest(needle, haystack).value
                             && Distance(needle, haystack[i]) <= Tolerance(needle)
  {
    if haystack != [] {
      var rest := haystack[1..];
      NearestWithin(needle, rest);
      NearestNext(needle, haystack);
      var near := Nearest(needle, rest);
      var d := Distance(needle, haystack[0]);
      if near.Some? {
        var i: nat :| FirstMinimum(needle, rest, i) && rest[i] == near.value
                      && Distance(needle, rest[i]) <= Tolerance(needle);
        if d <= Distance(needle, near.value) {
          MinimumInFront(needle, haystack, i);
        } else {
          MinimumBehind(needle, haystack, i);
        }
      } else if d <= Tolerance(needle) {
        MinimumAlone(needle, haystack);
      } else {
        assert forall i | 0 < i < |haystack| :: haystack[i] == rest[i - 1];
      }
    }
  }

  /** A known lab is always suggested as itself. */
  lemma NearestOfKnownLab(needle: string, haystack: seq<string>)
    requires needle in haystack
    ensures Nearest(needle, haystack) == Some(needle)
  {
    NearestIsFirstMinimum(needle, haystack);
    var k :| 0 <= k < |haystack| && haystack[k] == needle;
    ZeroMeansEqual(needle, haystack[k]);
    var i: nat :| FirstMinimum(needle, haystack, i) && haystack[i] == Nearest(needle, haystack).value;
    ZeroMeansEqual(needle, haystack[i]);
  }
}
