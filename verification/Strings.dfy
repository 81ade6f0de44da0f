/**
  Searching, joining and replacing in strings, as the Rust standard library
  does them.

  `Replace` is `str::replace`, `Contains` is `str::contains` and `JoinWith` is
  `join`. A part that ends at its separator can be read off whatever follows,
  which is what makes a joined text come apart again in one way only.
 */
module Strings {
  import opened Prelude

  predicate Contains(text: string, part: string) {
    part <= text || (text != "" && Contains(text[1..], part))
  }

  /** `part` stands at position `i`. */
  predicate StandsAt(text: string, part: string, i: nat) {
    i + |part| <= |text| && text[i..i + |part|] == part
  }

  lemma {:induction false} ContainsMeans(text: string, part: string)
    ensures Contains(text, part) <==> exists i: nat :: StandsAt(text, part, i)
  {
    if part <= text {
      assert StandsAt(text, part, 0);
    } else if text != "" {
      ContainsMeans(text[1..], part);
      if Contains(text[1..], part) {
        var i: nat :| StandsAt(text[1..], part, i);
        assert text[1..][i..i + |part|] == text[i + 1..i + 1 + |part|];
        assert StandsAt(text, part, i + 1);
      }
      forall i: nat | StandsAt(text, part, i) ensures Contains(text[1..], part) {
        if i > 0 {
          assert text[1..][i - 1..i - 1 + |part|] == text[i..i + |part|];
          assert StandsAt(text[1..], part, i - 1);
        }
      }
    }
  }

  /** `join`: the pieces with the separator between any two. */
  function JoinWith(separator: string, parts: seq<string>): string {
    if parts == [] then ""
    else if |parts| == 1 then parts[0]
    else parts[0] + (separator + JoinWith(separator, parts[1..]))
  }

  /** `str::replace`: every occurrence, left to right, never overlapping. */
  function Replace(s: string, from: string, to: string): string
    requires from != ""
  {
    if s == "" then ""
    else if from <= s then to + Replace(s[|from|..], from, to)
    else [s[0]] + Replace(s[1..], from, to)
  }

  /** Text without the first character of `from` is copied. */
  lemma {:induction false} ReplaceCopies(head: string, rest: string, from: string, to: string)
    requires from != "" && from[0] !in head
    ensures Replace(head + rest, from, to) == head + Replace(rest, from, to)
    decreases |head|
  {
    if head == "" {
      assert head + rest == rest;
    } else {
      var s := head + rest;
      assert s[1..] == head[1..] + rest;
      assert !(from <= s) by {
        assert s[0] == head[0] != from[0];
      }
      ReplaceCopies(head[1..], rest, from, to);
      assert head == [head[0]] + head[1..];
      assert [head[0]] + (head[1..] + Replace(rest, from, to)) == head + Replace(rest, from, to);
    }
  }

  lemma ReplaceHits(rest: string, from: string, to: string)
    requires from != ""
    ensures Replace(from + rest, from, to) == to + Replace(rest, from, to)
  {
    assert (from + rest)[|from|..] == rest;
  }

  /** The first character survives, or is the first of the replacement. */
  lemma ReplaceHead(s: string, from: string, to: string)
    requires from != "" && to != ""
    ensures s == "" ==> Replace(s, from, to) == ""
    ensures s != "" ==> Replace(s, from, to) != "" && Replace(s, from, to)[0] in [s[0], to[0]]
  {}

  /// Concatenation

  lemma Regroup(a: string, b: string, c: string)
    ensures (a + b) + c == a + (b + c)
  {}

  /** What a reader makes of the text behind a part it has taken. */
  function Before(head: string, r: Option<(string, string)>): Option<(string, string)> {
    if r.None? then None else Some((head + r.value.0, r.value.1))
  }

  /** A part that a separator can follow without standing any earlier. */
  predicate EndsAtSeparator(part: string, separator: string) {
    forall i: nat | i < |part| :: !StandsAt(part + separator, separator, i)
  }

  lemma FirstSeparator(a: string, separator: string, x: string)
    requires EndsAtSeparator(a, separator) && separator != ""
    ensures StandsAt(a + (separator + x), separator, |a|)
    ensures forall i: nat | i < |a| :: !StandsAt(a + (separator + x), separator, i)
  {
    var s := a + (separator + x);
    assert s[|a|..|a| + |separator|] == separator;
    forall i: nat | i < |a| ensures !StandsAt(s, separator, i) {
      if i + |separator| <= |s| {
        assert i + |separator| <= |a + separator|;
        assert s[i..i + |separator|] == (a + separator)[i..i + |separator|];
      }
      assert !StandsAt(a + separator, separator, i);
    }
  }

  /** Such a part can be read off whatever follows the separator. */
  lemma SplitsOneWay(a: string, x: string, b: string, y: string, separator: string)
    requires separator != "" && EndsAtSeparator(a, separator) && EndsAtSeparator(b, separator)
    requires a + (separator + x) == b + (separator + y)
    ensures a == b && x == y
  {
    var s := a + (separator + x);
    FirstSeparator(a, separator, x);
    FirstSeparator(b, separator, y);
    assert |a| == |b|;
    assert a == s[..|a|] && b == s[..|a|];
    assert x == s[|a| + |separator|..] && y == s[|a| + |separator|..];
  }

  /** A text is split one way only at the last place a character stands. */
  lemma SplitsAtLast(c: char, x: string, s: string, y: string, t: string)
    requires c !in s && c !in t && x + [c] + s == y + [c] + t
    ensures x == y && s == t
  {
    var whole := x + [c] + s;
    assert whole[|x|] == c && whole[|y|] == c;
    assert forall k | |x| < k < |whole| :: whole[k] == s[k - |x| - 1];
    assert forall k | |y| < k < |whole| :: whole[k] == t[k - |y| - 1];
    assert |x| == |y|;
    assert x == whole[..|x|] && y == whole[..|x|];
    assert s == whole[|x| + 1..] && t == whole[|x| + 1..];
  }

  /// Splitting

  /** `split_once`: what stands before and behind the first occurrence. */
  function SplitOnce(s: string, separator: string): (r: Option<(string, string)>)
    requires separator != ""
    decreases |s|
  {
    if separator <= s then Some(("", s[|separator|..]))
    else if s == "" then None
    else Before(s[..1], SplitOnce(s[1..], separator))
  }

  lemma {:induction false} SplitOnceAt(head: string, separator: string, tail: string)
    requires separator != "" && EndsAtSeparator(head, separator)
    ensures SplitOnce(head + (separator + tail), separator) == Some((head, tail))
    decreases |head|
  {
    var s := head + (separator + tail);
    if head == "" {
      assert s == separator + tail && s[|separator|..] == tail;
    } else {
      FirstSeparator(head, separator, tail);
      assert !StandsAt(s, separator, 0);
      BehindTheFirst(head, separator);
      assert s[1..] == head[1..] + (separator + tail);
      SplitOnceAt(head[1..], separator, tail);
      assert s[..1] + head[1..] == head;
    }
  }

  lemma BehindTheFirst(head: string, separator: string)
    requires head != "" && EndsAtSeparator(head, separator)
    ensures EndsAtSeparator(head[1..], separator)
  {
    var s, t := head + separator, head[1..] + separator;
    assert t == s[1..];
    forall i: nat | i < |head[1..]| ensures !StandsAt(t, separator, i) {
      assert !StandsAt(s, separator, i + 1);
      assert i + |separator| <= |t| ==> t[i..i + |separator|] == s[i + 1..i + 1 + |separator|];
    }
  }

  /** What is split off holds no separator. */
  lemma {:induction false} SplitOnceFirst(s: string, separator: string)
    requires separator != ""
    ensures SplitOnce(s, separator).Some? ==> !Contains(SplitOnce(s, separator).value.0, separator)
    decreases |s|
  {
    if !(separator <= s) && s != "" {
      SplitOnceFirst(s[1..], separator);
      var rest := SplitOnce(s[1..], separator);
      if rest.Some? {
        SplitOnceParts(s[1..], separator);
        var head := s[..1] + rest.value.0;
        assert head[1..] == rest.value.0;
        assert s == head + (separator + rest.value.1);
        PrefixOfPrefix(separator, head, s);
      }
    }
  }

  lemma PrefixOfPrefix(a: string, b: string, c: string)
    requires b <= c
    ensures a <= b ==> a <= c
  {}

  lemma {:induction false} SplitOnceParts(s: string, separator: string)
    requires separator != ""
    ensures SplitOnce(s, separator).Some? ==>
              s == SplitOnce(s, separator).value.0 + (separator + SplitOnce(s, separator).value.1)
    decreases |s|
  {
    if !(separator <= s) && s != "" {
      SplitOnceParts(s[1..], separator);
    }
  }

  /** A character stands nowhere earlier when it is not in the part before it. */
  lemma EndsAtCharacter(part: string, c: char)
    ensures EndsAtSeparator(part, [c]) <==> c !in part
  {
    var s := part + [c];
    forall i: nat | i < |part| ensures StandsAt(s, [c], i) <==> part[i] == c {
      assert s[i..i + 1] == [part[i]];
    }
  }

  lemma ContainsCharacter(s: string, c: char)
    ensures Contains(s, [c]) <==> c in s
  {
    ContainsMeans(s, [c]);
    forall i: nat | i < |s| ensures StandsAt(s, [c], i) <==> s[i] == c {
      assert s[i..i + 1] == [s[i]];
    }
    if c in s {
      var i: nat :| i < |s| && s[i] == c;
      assert StandsAt(s, [c], i);
    }
  }

  /** Where the separator stands, the text is split there or before. */
  lemma {:induction false} SplitsSomewhere(head: string, separator: string, tail: string)
    requires separator != ""
    ensures SplitOnce(head + (separator + tail), separator).Some?
    decreases |head|
  {
    if head == "" {
      assert head + (separator + tail) == separator + tail;
    } else {
      assert (head + (separator + tail))[1..] == head[1..] + (separator + tail);
      SplitsSomewhere(head[1..], separator, tail);
    }
  }
}
