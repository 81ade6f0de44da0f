/**
  Lines, trimming and joining, as the Rust standard library does them.

  `Lines` drops one carriage return before each newline it splits at, so text
  joined from lines reads back without theirs; `Clean` lines are those that
  survive. Where two texts meet at a newline, so do their lines. `Trim` strips
  the code points with the Unicode White_Space property from both ends.
 */
module Text {
  import opened Strings

  const NEWLINE := "\n"

  /** Position of the first newline, or the length when there is none. */
  function LineEnd(s: string): (i: nat)
    ensures i <= |s|
    ensures '\n' !in s[..i]
    ensures i < |s| ==> s[i] == '\n'
  {
    if s == [] || s[0] == '\n' then 0 else 1 + LineEnd(s[1..])
  }

  function StripReturn(line: string): string {
    if line != [] && line[|line| - 1] == '\r' then line[..|line| - 1] else line
  }

  /**
    `str::lines`: split at newlines, the last of which is optional, and drop one
    carriage return before each newline.
   */
  function Lines(s: string): seq<string>
    decreases |s|
  {
    if s == [] then []
    else
      var i := LineEnd(s);
      if i == |s| then [s] else [StripReturn(s[..i])] + Lines(s[i + 1..])
  }

  function Join(lines: seq<string>): string {
    JoinWith(NEWLINE, lines)
  }

  lemma JoinNext(lines: seq<string>)
    requires |lines| > 1
    ensures Join(lines) == lines[0] + NEWLINE + Join(lines[1..])
  {
    Regroup(lines[0], NEWLINE, Join(lines[1..]));
  }

  /** The code points with the Unicode White_Space property. */
  predicate IsWhitespace(c: char) {
    var n := c as int;
    || 0x09 <= n <= 0x0D || n == 0x20 || n == 0x85 || n == 0xA0 || n == 0x1680
    || 0x2000 <= n <= 0x200A || n == 0x2028 || n == 0x2029 || n == 0x202F || n == 0x205F || n == 0x3000
  }

  /** The list of Unicode, section 4.10 and PropList.txt. */
  const WHITE_SPACE: seq<int> :=
    [0x09, 0x0A, 0x0B, 0x0C, 0x0D, 0x20, 0x85, 0xA0, 0x1680,
     0x2000, 0x2001, 0x2002, 0x2003, 0x2004, 0x2005, 0x2006, 0x2007, 0x2008, 0x2009, 0x200A,
     0x2028, 0x2029, 0x202F, 0x205F, 0x3000]

  lemma WhitespaceIsListed(c: char)
    ensures IsWhitespace(c) <==> c as int in WHITE_SPACE
  {
    var n := c as int;
    if 0x09 <= n <= 0x0D {
      assert WHITE_SPACE[n - 0x09] == n;
    } else if 0x2000 <= n <= 0x200A {
      assert WHITE_SPACE[n - 0x2000 + 9] == n;
    } else if IsWhitespace(c) {
      assert WHITE_SPACE[5] == 0x20 && WHITE_SPACE[6] == 0x85 && WHITE_SPACE[7] == 0xA0 && WHITE_SPACE[8] == 0x1680;
      assert WHITE_SPACE[20] == 0x2028 && WHITE_SPACE[21] == 0x2029 && WHITE_SPACE[22] == 0x202F;
      assert WHITE_SPACE[23] == 0x205F && WHITE_SPACE[24] == 0x3000;
    }
  }

  function TrimStart(s: string): string {
    if s != [] && IsWhitespace(s[0]) then TrimStart(s[1..]) else s
  }

  function TrimEnd(s: string): string {
    if s != [] && IsWhitespace(s[|s| - 1]) then TrimEnd(s[..|s| - 1]) else s
  }

  function Trim(s: string): string {
    TrimEnd(TrimStart(s))
  }

  /// Lines of joined text

  predicate OneLine(s: string) {
    '\n' !in s
  }

  lemma LineEndOfPrefix(x: string, rest: string)
    requires OneLine(x)
    ensures LineEnd(x + NEWLINE + rest) == |x|
    ensures LineEnd(x) == |x|
  {
    var s := x + NEWLINE + rest;
    assert s[|x|] == '\n' && s[..|x|] == x;
  }

  lemma FirstLine(x: string, rest: string)
    requires OneLine(x)
    ensures Lines(x + NEWLINE + rest) == [StripReturn(x)] + Lines(rest)
  {
    var s := x + NEWLINE + rest;
    LineEndOfPrefix(x, rest);
    assert s[..|x|] == x && s[|x| + 1..] == rest;
  }

  /** The first line of text that goes on. */
  lemma FirstOfMore(x: string, head: string, tail: string, y: string)
    requires OneLine(head) && x == head + NEWLINE + tail
    ensures Lines(x + NEWLINE + y) == [StripReturn(head)] + Lines(tail + NEWLINE + y)
  {
    assert x + NEWLINE + y == head + NEWLINE + (tail + NEWLINE + y);
    FirstLine(head, tail + NEWLINE + y);
  }

  lemma FirstOfOpen(x: string, head: string, tail: string)
    requires OneLine(head) && x == head + NEWLINE + tail
    ensures Lines(x + NEWLINE) == [StripReturn(head)] + Lines(tail + NEWLINE)
  {
    Regroup(head + NEWLINE, tail, NEWLINE);
    FirstLine(head, tail + NEWLINE);
  }

  lemma SplitAtLineEnd(x: string) returns (head: string, tail: string)
    requires LineEnd(x) < |x|
    ensures OneLine(head) && x == head + NEWLINE + tail
  {
    var i := LineEnd(x);
    head, tail := x[..i], x[i + 1..];
  }

  /** A newline between two texts is where their lines meet. */
  lemma {:induction false} LinesMeet(x: string, y: string)
    ensures Lines(x + NEWLINE + y) == Lines(x + NEWLINE) + Lines(y)
    decreases |x|
  {
    if LineEnd(x) == |x| {
      OneLineMeets(x, y);
    } else {
      var head, tail := SplitAtLineEnd(x);
      LinesMeet(tail, y);
      MeetBehind(x, y, head, tail);
    }
  }

  lemma MeetBehind(x: string, y: string, head: string, tail: string)
    requires OneLine(head) && x == head + NEWLINE + tail
    requires Lines(tail + NEWLINE + y) == Lines(tail + NEWLINE) + Lines(y)
    ensures Lines(x + NEWLINE + y) == Lines(x + NEWLINE) + Lines(y)
  {
    FirstOfMore(x, head, tail, y);
    FirstOfOpen(x, head, tail);
    BehindTheFirst(StripReturn(head), Lines(tail + NEWLINE), Lines(y));
  }

  lemma BehindTheFirst(first: string, a: seq<string>, b: seq<string>)
    ensures [first] + (a + b) == ([first] + a) + b
  {}

  lemma OneLineMeets(x: string, y: string)
    requires OneLine(x)
    ensures Lines(x + NEWLINE + y) == Lines(x + NEWLINE) + Lines(y)
  {
    FirstLine(x, y);
    FirstLine(x, []);
    assert x + NEWLINE == x + NEWLINE + [];
    assert [StripReturn(x)] + [] == [StripReturn(x)];
  }

  /** Lines that survive being joined: none holds a newline, and none loses a carriage return. */
  predicate Clean(lines: seq<string>) {
    forall i | 0 <= i < |lines| :: OneLine(lines[i]) && StripReturn(lines[i]) == lines[i]
  }

  function StripAll(lines: seq<string>): (r: seq<string>)
    ensures |r| == |lines| && forall i | 0 <= i < |lines| :: r[i] == StripReturn(lines[i])
  {
    seq(|lines|, i requires 0 <= i < |lines| => StripReturn(lines[i]))
  }

  predicate AllOneLine(lines: seq<string>) {
    forall i | 0 <= i < |lines| :: OneLine(lines[i])
  }

  /** Joined and closed, lines are read back without their carriage returns. */
  lemma {:induction false} LinesOfClosedJoin(lines: seq<string>)
    requires lines != [] && AllOneLine(lines)
    ensures Lines(Join(lines) + NEWLINE) == StripAll(lines)
    decreases |lines|
  {
    var x := lines[0];
    if |lines| == 1 {
      OneLineCloses(x);
      assert StripAll(lines) == [StripReturn(x)];
    } else {
      var rest := lines[1..];
      LinesOfClosedJoin(rest);
      JoinNext(lines);
      FirstOfOpen(Join(lines), x, Join(rest));
      assert StripAll(lines) == [StripReturn(x)] + StripAll(rest);
    }
  }

  lemma OneLineCloses(x: string)
    requires OneLine(x)
    ensures Lines(x + NEWLINE) == [StripReturn(x)]
  {
    FirstLine(x, []);
    assert x + NEWLINE + [] == x + NEWLINE;
  }

  lemma LinesOfJoin(lines: seq<string>)
    requires Clean(lines) && lines != []
    ensures Lines(Join(lines) + NEWLINE) == lines
  {
    LinesOfClosedJoin(lines);
    assert StripAll(lines) == lines;
  }

  /** As `Lines` reads them: the last line, without a newline behind it, loses nothing. */
  function StripInit(lines: seq<string>): (r: seq<string>)
    ensures |r| == |lines|
    ensures forall i | 0 <= i < |lines| :: r[i] == if i < |lines| - 1 then StripReturn(lines[i]) else lines[i]
  {
    seq(|lines|, i requires 0 <= i < |lines| => if i < |lines| - 1 then StripReturn(lines[i]) else lines[i])
  }

  lemma {:induction false} LinesOfOpen(lines: seq<string>)
    requires lines != [] && AllOneLine(lines) && lines[|lines| - 1] != ""
    ensures Lines(Join(lines)) == StripInit(lines)
    decreases |lines|
  {
    if |lines| == 1 {
      LinesOfOne(lines[0]);
      assert StripInit(lines) == lines == [lines[0]];
    } else {
      LinesOfOpen(lines[1..]);
      JoinNext(lines);
      FirstLine(lines[0], Join(lines[1..]));
      StripInitNext(lines);
    }
  }

  lemma LinesOfOne(x: string)
    requires OneLine(x) && x != ""
    ensures Lines(x) == [x]
  {
    LineEndOfPrefix(x, "");
  }

  lemma StripInitNext(lines: seq<string>)
    requires |lines| > 1
    ensures StripInit(lines) == [StripReturn(lines[0])] + StripInit(lines[1..])
  {}

  /** The closing newline is optional unless the last line is empty. */
  lemma LinesOfOpenJoin(lines: seq<string>)
    requires Clean(lines) && lines != [] && lines[|lines| - 1] != []
    ensures Lines(Join(lines)) == lines
  {
    LinesOfOpen(lines);
    assert StripInit(lines) == lines;
  }

  lemma {:induction false} LinesAreOneLine(s: string, line: string)
    requires line in Lines(s)
    ensures OneLine(line)
    decreases |s|
  {
    var i := LineEnd(s);
    if i < |s| && line != StripReturn(s[..i]) {
      LinesAreOneLine(s[i + 1..], line);
    }
  }

  lemma {:induction false} JoinAppend(a: seq<string>, b: seq<string>)
    requires a != [] && b != []
    ensures Join(a + b) == Join(a) + NEWLINE + Join(b)
  {
    if |a| == 1 {
      assert (a + b)[1..] == b;
    } else {
      assert (a + b)[1..] == a[1..] + b;
      JoinAppend(a[1..], b);
    }
  }

  /// Trimming

  lemma {:induction false} TrimStartIsTight(s: string)
    ensures TrimStart(s) == [] || !IsWhitespace(TrimStart(s)[0])
    ensures forall c | c in TrimStart(s) :: c in s
  {
    if s != [] && IsWhitespace(s[0]) {
      TrimStartIsTight(s[1..]);
    }
  }

  lemma {:induction false} TrimEndIsTight(s: string)
    ensures TrimEnd(s) == [] || !IsWhitespace(TrimEnd(s)[|TrimEnd(s)| - 1])
    ensures TrimEnd(s) <= s
  {
    if s != [] && IsWhitespace(s[|s| - 1]) {
      TrimEndIsTight(s[..|s| - 1]);
    }
  }

  lemma TrimIsTight(s: string)
    ensures var t := Trim(s);
            && (forall c | c in t :: c in s)
            && (t != [] ==> !IsWhitespace(t[0]) && !IsWhitespace(t[|t| - 1]))
  {
    TrimStartIsTight(s);
    TrimEndIsTight(TrimStart(s));
  }

  /** What is already tight is its own trimming. */
  lemma TightIsTrimmed(t: string)
    requires t != [] ==> !IsWhitespace(t[0]) && !IsWhitespace(t[|t| - 1])
    ensures Trim(t) == t
  {}

  lemma TrimOfTrim(s: string)
    ensures Trim(Trim(s)) == Trim(s)
  {
    TrimIsTight(s);
    TightIsTrimmed(Trim(s));
  }

  lemma {:induction false} TrimStartBefore(s: string, c: char)
    requires IsWhitespace(c)
    ensures TrimStart(s + [c]) == if TrimStart(s) == "" then "" else TrimStart(s) + [c]
  {
    if s == "" {
      assert s + [c] == [c] && [c][1..] == "";
      assert TrimStart([c]) == TrimStart("");
    } else {
      assert (s + [c])[1..] == s[1..] + [c];
      if IsWhitespace(s[0]) {
        TrimStartBefore(s[1..], c);
      }
    }
  }

  /** A carriage return at the end is trimmed with the rest. */
  lemma TrimStripped(line: string)
    ensures Trim(StripReturn(line)) == Trim(line)
  {
    var s := StripReturn(line);
    if s != line {
      assert line == s + ['\r'];
      TrimStartBefore(s, '\r');
      var t := TrimStart(s);
      assert (t + ['\r'])[..|t|] == t;
    }
  }

  /** A trimmed line of a text is clean: it holds no newline and ends in no carriage return. */
  lemma TrimmedLineIsClean(s: string, line: string)
    requires line in Lines(s)
    ensures Clean([Trim(line)])
  {
    LinesAreOneLine(s, line);
    TrimIsTight(line);
  }
}
