/**
  Descriptions of several lines, as cli/src/codegen/nix_emitter.rs writes them
  into an indented string, and where the Nix lexer takes that string to end.
 */
module NixIndented {
  import opened Prelude
  import opened Strings
  import opened Text

  // Two quotes are written as four, which the lexer reads as an escaped pair and
  // one quote more, so what it makes of quotes is not what was written. It is
  // not claimed that such a description reads back; only where its text ends,
  // and that is a matter of how many quotes stand in a row.

  /// Writing

  const QUOTES := "''"
  const DOLLAR := "${"
  const MARGIN := "\n        "
  const CLOSING := "\n      "

  function TrimEnds(lines: seq<string>): seq<string> {
    seq(|lines|, i requires 0 <= i < |lines| => TrimEnd(lines[i]))
  }

  /** The lines without their trailing white space. */
  function Trimmed(s: string): string {
    Join(TrimEnds(Lines(s)))
  }

  function DoubleQuotes(s: string): string {
    Replace(s, QUOTES, "''''")
  }

  function EscapeDollars(s: string): string {
    Replace(s, DOLLAR, "''${")
  }

  /** Every line but the first behind a margin. */
  function Margins(s: string): string {
    Replace(s, NEWLINE, MARGIN)
  }

  function Written(s: string): string {
    Margins(EscapeDollars(DoubleQuotes(s)))
  }

  function Indented(description: string): string {
    Written(Trimmed(description))
  }

  /** All that stands between the opening quotes and the closing ones. */
  function BetweenQuotes(indented: string): string {
    MARGIN + (indented + CLOSING)
  }

  /// Reading

  predicate Ordinary(c: char) {
    c != '$' && c != '\''
  }

  /**
    What follows two opening quotes, up to the closing ones: the text as it is
    written and what comes after it. A dollar or a quote takes the character
    behind it along unless that one may start something; two quotes behind which
    stands a dollar, a quote or a backslash are an escape.
   */
  function ReadIndented(s: string): (r: Option<(string, string)>)
    ensures r.Some? ==> |r.value.1| < |s|
    decreases |s|
  {
    if s == "" then None
    else if Ordinary(s[0]) then Before(s[..1], ReadIndented(s[1..]))
    else if s[0] == '$' then
      if |s| >= 2 && s[1] == '{' then None
      else if |s| >= 2 && s[1] != '\'' then Before(s[..2], ReadIndented(s[2..]))
      else Before("$", ReadIndented(s[1..]))
    else if |s| >= 2 && s[1] == '\'' then
      if |s| >= 3 && !Ordinary(s[2]) then Before(s[..3], ReadIndented(s[3..]))
      else if |s| >= 4 && s[2] == '\\' then Before(s[..4], ReadIndented(s[4..]))
      else Some(("", s[2..]))
    else if |s| >= 2 && s[1] != '$' then Before(s[..2], ReadIndented(s[2..]))
    else Before("'", ReadIndented(s[1..]))
  }

  /// Runs of quotes

  function Run(n: nat): string {
    if n == 0 then "" else "'" + Run(n - 1)
  }

  /** How many quotes the text starts with. */
  function RunLength(s: string): (n: nat)
    ensures n <= |s|
    ensures n > 0 <==> s != "" && s[0] == '\''
  {
    if s == "" || s[0] != '\'' then 0 else 1 + RunLength(s[1..])
  }

  lemma {:induction false} RunLengthMeans(s: string)
    ensures s == Run(RunLength(s)) + s[RunLength(s)..]
    ensures RunLength(s) < |s| ==> s[RunLength(s)] != '\''
  {
    if RunLength(s) > 0 {
      var t, n := s[1..], RunLength(s[1..]);
      RunLengthMeans(t);
      assert t[n..] == s[n + 1..] && s == "'" + t;
      Regroup("'", Run(n), t[n..]);
    }
  }

  /** How many quotes so many are written as. */
  function Doubled(n: nat): nat {
    if n % 2 == 0 then 2 * n else 2 * n - 1
  }

  /**
    Whether the text written for `s` is read past its end: of each run of quotes
    the lexer takes three at a time, and two left over close the string unless a
    dollar or a backslash follows. `eaten` says that the first character
    written has gone with a backslash before it.
   */
  predicate Safe(s: string, eaten: bool)
    decreases |s|, 0
  {
    if s == "" then true
    else if s[0] == '\'' then
      SafeBehind(Doubled(RunLength(s)) - (if eaten then 1 else 0), s[RunLength(s)..])
    else if DOLLAR <= s then !eaten && Safe(s[2..], false)
    else Safe(s[1..], false)
  }

  /** The same with so many quotes still to be read in front. */
  predicate SafeBehind(quotes: nat, rest: string)
    decreases |rest|, 1
  {
    if DOLLAR <= rest then quotes % 3 == 0 && Safe(rest[2..], false)
    else if rest != "" && rest[0] == '$' then Safe(rest[1..], false)
    else if rest != "" && rest[0] == '\\' && quotes % 3 == 2 then Safe(rest[1..], true)
    else quotes % 3 != 2 && Safe(rest, false)
  }

  /// Reading, piece by piece

  type Reading = Option<(string, string)>

  /** The string ends where `after` begins. */
  predicate EndsAt(r: Reading, after: string) {
    r.Some? && r.value.1 == after
  }

  lemma BeforeBoth(a: string, b: string, r: Reading)
    ensures Before(a, Before(b, r)) == Before(a + b, r)
  {
    if r.Some? {
      Regroup(a, b, r.value.0);
    }
  }

  /** What is read is what stands there, up to the closing quotes. */
  lemma {:induction false} ReadIsThere(s: string)
    ensures ReadIndented(s).Some? ==> s == ReadIndented(s).value.0 + (QUOTES + ReadIndented(s).value.1)
    decreases |s|
  {
    var k := Taken(s);
    if k > 0 {
      ReadIsThere(s[k..]);
      TakenIsBefore(s);
      assert s == s[..k] + s[k..];
    } else if ReadIndented(s).Some? {
      assert s == "" + (QUOTES + s[2..]);
    }
  }

  /** How much is taken at once. */
  function Taken(s: string): (k: nat)
    ensures k <= |s|
  {
    if s == "" then 0
    else if Ordinary(s[0]) then 1
    else if s[0] == '$' then
      if |s| >= 2 && s[1] == '{' then 0
      else if |s| >= 2 && s[1] != '\'' then 2
      else 1
    else if |s| >= 2 && s[1] == '\'' then
      if |s| >= 3 && !Ordinary(s[2]) then 3
      else if |s| >= 4 && s[2] == '\\' then 4
      else 0
    else if |s| >= 2 && s[1] != '$' then 2
    else 1
  }

  lemma TakenIsBefore(s: string)
    requires Taken(s) > 0
    ensures ReadIndented(s) == Before(s[..Taken(s)], ReadIndented(s[Taken(s)..]))
  {
    if s[0] == '$' && Taken(s) == 1 {
      assert s[..1] == "$";
    }
    if s[0] == '\'' && Taken(s) == 1 {
      assert s[..1] == "'";
    }
  }

  lemma ReadsOrdinary(c: char, u: string)
    requires Ordinary(c)
    ensures ReadIndented([c] + u) == Before([c], ReadIndented(u))
  {
    assert ([c] + u)[..1] == [c] && ([c] + u)[1..] == u;
  }

  lemma {:induction false} OrdinariesEnd(head: string, u: string, after: string)
    requires forall c | c in head :: Ordinary(c)
    ensures EndsAt(ReadIndented(head + u), after) == EndsAt(ReadIndented(u), after)
  {
    if head == "" {
      assert head + u == u;
    } else {
      ReadsOrdinary(head[0], head[1..] + u);
      OrdinariesEnd(head[1..], u, after);
      assert head + u == [head[0]] + (head[1..] + u);
    }
  }

  /** A dollar or a quote before an ordinary character is read as if apart from it. */
  lemma ReadsBeforeOrdinary(c: char, u: string)
    requires !Ordinary(c) && u != "" && Ordinary(u[0]) && (c == '$' ==> u[0] != '{')
    ensures ReadIndented([c] + u) == Before([c], ReadIndented(u))
  {
    var s := [c] + u;
    assert s[..2] == [c] + [u[0]] && s[2..] == u[1..] && u[..1] == [u[0]];
    BeforeBoth([c], [u[0]], ReadIndented(u[1..]));
  }

  lemma ReadsDollarBeforeQuote(u: string)
    requires u != "" && u[0] == '\''
    ensures ReadIndented("$" + u) == Before("$", ReadIndented(u))
  {
    assert ("$" + u)[1..] == u;
  }

  lemma ReadsTwoDollars(u: string)
    ensures ReadIndented("$$" + u) == Before("$$", ReadIndented(u))
  {
    assert ("$$" + u)[..2] == "$$" && ("$$" + u)[2..] == u;
  }

  lemma ReadsThree(u: string)
    ensures ReadIndented("'''" + u) == Before("'''", ReadIndented(u))
  {
    assert ("'''" + u)[..3] == "'''" && ("'''" + u)[3..] == u;
  }

  lemma ReadsQuoteDollar(u: string)
    ensures ReadIndented("''$" + u) == Before("''$", ReadIndented(u))
  {
    assert ("''$" + u)[..3] == "''$" && ("''$" + u)[3..] == u;
  }

  lemma RunOfThree(n: nat, u: string)
    requires n >= 3
    ensures Run(n) + u == "'''" + (Run(n - 3) + u)
  {
    assert Run(n - 1) == "'" + Run(n - 2) && Run(n - 2) == "'" + Run(n - 3);
    assert "'" + ("'" + ("'" + Run(n - 3))) == "'''" + Run(n - 3);
    Regroup("'''", Run(n - 3), u);
  }

  /** What is left of a run when the lexer has taken three quotes as often as it can. */
  function Over(n: nat): (k: nat)
    ensures k < 3
  {
    if n < 3 then n else Over(n - 3)
  }

  lemma {:induction false} OverIsModulo(n: nat)
    ensures Over(n) == n % 3
  {
    if n >= 3 {
      OverIsModulo(n - 3);
    }
  }

  lemma {:induction false} RunEnds(n: nat, u: string, after: string)
    ensures EndsAt(ReadIndented(Run(n) + u), after) == EndsAt(ReadIndented(Run(Over(n)) + u), after)
  {
    if n >= 3 {
      RunOfThree(n, u);
      ReadsThree(Run(n - 3) + u);
      RunEnds(n - 3, u, after);
    }
  }

  lemma RunEndsModulo(n: nat, u: string, after: string)
    ensures n % 3 == 0 ==> EndsAt(ReadIndented(Run(n) + u), after) == EndsAt(ReadIndented(u), after)
    ensures n % 3 == 1 ==> EndsAt(ReadIndented(Run(n) + u), after) == EndsAt(ReadIndented("'" + u), after)
    ensures n % 3 == 2 ==> EndsAt(ReadIndented(Run(n) + u), after) == EndsAt(ReadIndented("''" + u), after)
  {
    RunEnds(n, u, after);
    OverIsModulo(n);
    ShortRuns(u);
  }

  /** What a run followed by neither quote, dollar nor backslash comes to. */
  lemma RunBeforeOrdinary(n: nat, u: string, after: string)
    requires u != "" && Ordinary(u[0]) && u[0] != '\\' && |u| > |after|
    ensures EndsAt(ReadIndented(Run(n) + u), after) <==> n % 3 != 2 && EndsAt(ReadIndented(u), after)
  {
    RunEndsModulo(n, u, after);
    if n % 3 == 1 {
      ReadsBeforeOrdinary('\'', u);
    } else if n % 3 == 2 {
      ReadsClosing(u);
    }
  }

  lemma ReadsClosing(u: string)
    requires u != "" && Ordinary(u[0]) && u[0] != '\\'
    ensures ReadIndented("''" + u) == Some(("", u))
  {
    assert ("''" + u)[2..] == u && ("''" + u)[2] == u[0];
  }

  lemma ShortRuns(u: string)
    ensures Run(0) + u == u && Run(1) == "'" && Run(2) == "''"
  {
    assert Run(1) == "'" + "" && Run(2) == "'" + ("'" + "");
  }

  lemma RunBeforeBackslash(n: nat, u: string, after: string)
    requires |u| >= 2 && u[0] == '\\'
    ensures EndsAt(ReadIndented(Run(n) + u), after)
            == EndsAt(ReadIndented(if n % 3 == 2 then u[2..] else u), after)
  {
    RunEndsModulo(n, u, after);
    if n % 3 == 1 {
      ReadsBeforeOrdinary('\'', u);
    } else if n % 3 == 2 {
      assert ("''" + u)[4..] == u[2..] && ("''" + u)[2] == '\\';
    }
  }

  lemma RunBeforeDollar(n: nat, u: string, after: string)
    requires u != "" && u[0] == '$'
    ensures EndsAt(ReadIndented(Run(n) + u), after)
            == EndsAt(ReadIndented(if n % 3 == 2 then u[1..] else u), after)
  {
    RunEndsModulo(n, u, after);
    if n % 3 == 1 {
      assert ("'" + u)[1..] == u;
    } else if n % 3 == 2 {
      assert "''" + u == "''$" + u[1..];
      ReadsQuoteDollar(u[1..]);
    }
  }

  lemma TwoMoreModulo(n: nat)
    ensures (n + 2) % 3 == 2 <==> n % 3 == 0
  {}

  /** A run before what `${` is written as. */
  lemma RunBeforeEscape(n: nat, w: string, after: string)
    ensures EndsAt(ReadIndented(Run(n) + ("''${" + w)), after) <==> n % 3 == 0 && EndsAt(ReadIndented(w), after)
  {
    var u := DOLLAR + w;
    RunGrows(n, u);
    Regroup("''", DOLLAR, w);
    assert "''" + DOLLAR == "''${";
    ReadsInterpolation(w, after);
    RunBeforeDollar(n + 2, u, after);
    TwoMoreModulo(n);
  }

  lemma ReadsInterpolation(w: string, after: string)
    ensures (DOLLAR + w)[0] == '$' && ReadIndented(DOLLAR + w) == None
    ensures EndsAt(ReadIndented((DOLLAR + w)[1..]), after) == EndsAt(ReadIndented(w), after)
  {
    assert (DOLLAR + w)[1] == '{';
    assert (DOLLAR + w)[1..] == "{" + w;
    ReadsOrdinary('{', w);
  }

  lemma {:induction false} RunGrows(n: nat, u: string)
    ensures Run(n) + ("''" + u) == Run(n + 2) + u
  {
    if n == 0 {
      ShortRuns("''" + u);
    } else {
      RunGrows(n - 1, u);
      assert Run(n) + ("''" + u) == "'" + (Run(n - 1) + ("''" + u));
      assert "'" + (Run(n + 1) + u) == Run(n + 2) + u;
    }
  }

  /** What can follow the closing quotes without turning them into an escape. */
  predicate Follows(after: string) {
    after != "" && Ordinary(after[0]) && after[0] != '\\'
  }

  lemma ClosingEnds(spaces: string, after: string)
    requires Follows(after) && forall c | c in spaces :: Ordinary(c)
    ensures EndsAt(ReadIndented(spaces + (QUOTES + after)), after)
  {
    var s := QUOTES + after;
    assert s[2..] == after && s[2] == after[0];
    OrdinariesEnd(spaces, s, after);
  }

  /// The text written, from left to right

  lemma {:induction false} RunIsQuotes(n: nat)
    ensures |Run(n)| == n && forall c | c in Run(n) :: c == '\''
  {
    if n > 0 {
      RunIsQuotes(n - 1);
    }
  }

  lemma {:induction false} RunDoubles(n: nat, u: string)
    requires u != "" ==> u[0] != '\''
    ensures DoubleQuotes(Run(n) + u) == Run(Doubled(n)) + DoubleQuotes(u)
  {
    ShortRuns(u);
    ShortRuns(DoubleQuotes(u));
    if n == 1 {
      StartsWith("'" + u, QUOTES);
      assert ("'" + u)[1..] == u;
    } else if n > 1 {
      TwoMore(n - 2, u);
      ReplaceHits(Run(n - 2) + u, QUOTES, "''''");
      RunDoubles(n - 2, u);
      FourMore(Doubled(n - 2), DoubleQuotes(u));
      assert Doubled(n) == Doubled(n - 2) + 4;
    }
  }

  lemma TwoMore(n: nat, u: string)
    ensures Run(n + 2) + u == QUOTES + (Run(n) + u)
  {
    assert Run(n + 2) == "'" + ("'" + Run(n));
    assert "'" + ("'" + Run(n)) == QUOTES + Run(n);
  }

  lemma FourMore(n: nat, u: string)
    ensures Run(n + 4) + u == "''''" + (Run(n) + u)
  {
    TwoMore(n + 2, u);
    TwoMore(n, u);
    assert QUOTES + (QUOTES + (Run(n) + u)) == "''''" + (Run(n) + u);
  }

  lemma StartsWith(s: string, part: string)
    requires |part| == 2
    ensures part <= s <==> |s| >= 2 && s[0] == part[0] && s[1] == part[1]
  {
    if |s| >= 2 && s[0] == part[0] && s[1] == part[1] {
      assert s[..2] == part;
    }
  }

  lemma WrittenRun(n: nat, u: string)
    requires u != "" ==> u[0] != '\''
    ensures Written(Run(n) + u) == Run(Doubled(n)) + Written(u)
  {
    RunDoubles(n, u);
    RunIsQuotes(Doubled(n));
    ReplaceCopies(Run(Doubled(n)), DoubleQuotes(u), DOLLAR, "''${");
    ReplaceCopies(Run(Doubled(n)), EscapeDollars(DoubleQuotes(u)), NEWLINE, MARGIN);
  }

  lemma WrittenDollar(r: string)
    ensures Written(DOLLAR + r) == "''${" + Written(r)
  {
    ReplaceCopies(DOLLAR, r, QUOTES, "''''");
    ReplaceHits(DoubleQuotes(r), DOLLAR, "''${");
    ReplaceCopies("''${", EscapeDollars(DoubleQuotes(r)), NEWLINE, MARGIN);
  }

  lemma WrittenNewline(r: string)
    ensures Written(NEWLINE + r) == MARGIN + Written(r)
  {
    ReplaceCopies(NEWLINE, r, QUOTES, "''''");
    ReplaceCopies(NEWLINE, DoubleQuotes(r), DOLLAR, "''${");
    ReplaceHits(EscapeDollars(DoubleQuotes(r)), NEWLINE, MARGIN);
  }

  lemma WrittenOther(c: char, r: string)
    requires c != '\n' && c != '\'' && !(DOLLAR <= [c] + r)
    ensures Written([c] + r) == [c] + Written(r)
  {
    ReplaceCopies([c], r, QUOTES, "''''");
    var s := [c] + DoubleQuotes(r);
    StartsWith([c] + r, DOLLAR);
    StartsWith(s, DOLLAR);
    ReplaceHead(r, QUOTES, "''''");
    assert s[1..] == DoubleQuotes(r);
    assert EscapeDollars(s) == [c] + EscapeDollars(DoubleQuotes(r));
    ReplaceCopies([c], EscapeDollars(DoubleQuotes(r)), NEWLINE, MARGIN);
  }

  /** How the text written for `r` starts. */
  lemma WrittenHead(r: string, tail: string)
    requires tail != ""
    ensures r == "" ==> Written(r) + tail == tail
    ensures DOLLAR <= r ==> (Written(r) + tail)[0] == '\''
    ensures r != "" && !(DOLLAR <= r) ==> (Written(r) + tail)[0] == r[0]
  {
    if DOLLAR <= r {
      assert r == DOLLAR + r[2..];
      WrittenDollar(r[2..]);
    } else if r != "" {
      assert r == [r[0]] + r[1..];
      if r[0] == '\n' {
        WrittenNewline(r[1..]);
      } else if r[0] == '\'' {
        RunLengthMeans(r);
        WrittenRun(RunLength(r), r[RunLength(r)..]);
        RunIsQuotes(Doubled(RunLength(r)));
        assert Doubled(RunLength(r)) > 0;
        assert Run(Doubled(RunLength(r)))[0] in Run(Doubled(RunLength(r)));
      } else {
        WrittenOther(r[0], r[1..]);
      }
    }
  }

  /// Exactly the safe texts end where they should

  /** What is left to read of `s` and the closing behind it. */
  function LeftOf(s: string, eaten: bool, tail: string): string
    requires tail != ""
  {
    if eaten then (Written(s) + tail)[1..] else Written(s) + tail
  }

  predicate Closes(tail: string, after: string) {
    Follows(after) && tail == CLOSING + (QUOTES + after)
  }

  predicate Ends(s: string, eaten: bool, tail: string, after: string)
    requires tail != ""
  {
    EndsAt(ReadIndented(LeftOf(s, eaten, tail)), after)
  }

  lemma {:induction false} EndsExactlyWhenSafe(s: string, eaten: bool, tail: string, after: string)
    requires Closes(tail, after)
    ensures Ends(s, eaten, tail, after) <==> Safe(s, eaten)
    decreases |s|, 1
  {
    if s == "" {
      NothingLeft(eaten, tail, after);
    } else if s[0] == '\'' {
      RunLeft(s, eaten, tail, after);
    } else if DOLLAR <= s {
      EndsExactlyWhenSafe(s[2..], false, tail, after);
      assert s == DOLLAR + s[2..];
      DollarLeft(s[2..], eaten, tail, after);
    } else if s[0] == '$' && !eaten {
      LoneDollarLeft(s, tail, after);
    } else {
      EndsExactlyWhenSafe(s[1..], false, tail, after);
      assert s == [s[0]] + s[1..];
      CharacterLeft(s[0], s[1..], eaten, tail, after);
    }
  }

  lemma NothingLeft(eaten: bool, tail: string, after: string)
    requires Closes(tail, after)
    ensures Ends("", eaten, tail, after)
  {
    assert Written("") + tail == tail;
    if eaten {
      assert CLOSING == "\n" + "      ";
      assert tail[1..] == "      " + (QUOTES + after);
      ClosingEnds("      ", after);
    } else {
      ClosingEnds(CLOSING, after);
    }
  }

  lemma DollarLeft(r: string, eaten: bool, tail: string, after: string)
    requires tail != ""
    ensures Ends(DOLLAR + r, eaten, tail, after) <==> !eaten && Ends(r, false, tail, after)
  {
    var w := Written(r) + tail;
    WrittenDollar(r);
    Regroup("''${", Written(r), tail);
    if eaten {
      EatenEscape(w, after);
    } else {
      RunBeforeEscape(0, w, after);
      ShortRuns("''${" + w);
    }
  }

  lemma EatenEscape(w: string, after: string)
    ensures !EndsAt(ReadIndented(("''${" + w)[1..]), after)
  {
    var u := DOLLAR + w;
    assert ("''${" + w)[1..] == "'" + u;
    ReadsInterpolation(w, after);
    assert ("'" + u)[1..] == u;
  }

  /** Anything but a quote and a dollar, unless the dollar is eaten. */
  lemma CharacterLeft(c: char, r: string, eaten: bool, tail: string, after: string)
    requires tail != "" && !(DOLLAR <= [c] + r) && (eaten || Ordinary(c)) && c != '\''
    ensures Ends([c] + r, eaten, tail, after) <==> Ends(r, false, tail, after)
  {
    var w := Written(r) + tail;
    var head := if c == '\n' then MARGIN else [c];
    if c == '\n' {
      assert [c] + r == NEWLINE + r;
      WrittenNewline(r);
    } else {
      WrittenOther(c, r);
    }
    Regroup(head, Written(r), tail);
    if eaten {
      assert (head + w)[1..] == head[1..] + w;
      OrdinariesEnd(head[1..], w, after);
    } else {
      OrdinariesEnd(head, w, after);
    }
  }

  lemma {:induction false} LoneDollarLeft(s: string, tail: string, after: string)
    requires Closes(tail, after) && s != "" && s[0] == '$' && !(DOLLAR <= s)
    ensures Ends(s, false, tail, after) <==> Safe(s, false)
    decreases |s|, 0
  {
    var r := s[1..];
    var u := Written(r) + tail;
    assert s == "$" + r;
    WrittenOther('$', r);
    Regroup("$", Written(r), tail);
    WrittenHead(r, tail);
    StartsWith(s, DOLLAR);
    if u[0] == '$' {
      EndsExactlyWhenSafe(r[1..], false, tail, after);
      TwoDollarsLeft(r, tail, after);
    } else {
      EndsExactlyWhenSafe(r, false, tail, after);
      if u[0] == '\'' {
        ReadsDollarBeforeQuote(u);
      } else {
        ReadsBeforeOrdinary('$', u);
      }
    }
  }

  lemma TwoDollarsLeft(r: string, tail: string, after: string)
    requires tail != "" && r != "" && r[0] == '$' && !(DOLLAR <= r)
    ensures EndsAt(ReadIndented("$" + (Written(r) + tail)), after) == Ends(r[1..], false, tail, after)
    ensures Safe("$" + r, false) == Safe(r[1..], false)
  {
    var w := Written(r[1..]) + tail;
    assert r == "$" + r[1..];
    WrittenOther('$', r[1..]);
    assert "$" + (Written(r) + tail) == "$$" + w;
    ReadsTwoDollars(w);
    StartsWith("$" + r, DOLLAR);
    assert ("$" + r)[1..] == r;
  }

  /** A run of quotes, and whatever stands behind it. */
  lemma {:induction false} RunLeft(s: string, eaten: bool, tail: string, after: string)
    requires Closes(tail, after) && s != "" && s[0] == '\''
    ensures Ends(s, eaten, tail, after) <==> Safe(s, eaten)
    decreases |s|, 0
  {
    var n := RunLength(s);
    RunLengthMeans(s);
    RunIsLeft(n, s[n..], eaten, tail);
    BehindEnds(Doubled(n) - (if eaten then 1 else 0), s[n..], tail, after);
  }

  lemma {:induction false} BehindEnds(left: nat, rest: string, tail: string, after: string)
    requires Closes(tail, after) && (rest != "" ==> rest[0] != '\'')
    ensures EndsAt(ReadIndented(Run(left) + (Written(rest) + tail)), after) <==> SafeBehind(left, rest)
    decreases |rest|, 2
  {
    if DOLLAR <= rest {
      EndsExactlyWhenSafe(rest[2..], false, tail, after);
      assert rest == DOLLAR + rest[2..];
      RunThenEscape(left, rest[2..], tail, after);
    } else if rest != "" && rest[0] == '$' {
      EndsExactlyWhenSafe(rest, false, tail, after);
      EndsExactlyWhenSafe(rest[1..], false, tail, after);
      assert rest == "$" + rest[1..];
      RunThenDollar(left, rest[1..], tail, after);
    } else if rest != "" && rest[0] == '\\' {
      EndsExactlyWhenSafe(rest, false, tail, after);
      EndsExactlyWhenSafe(rest[1..], true, tail, after);
      assert rest == "\\" + rest[1..];
      RunThenBackslash(left, rest[1..], tail, after);
    } else {
      EndsExactlyWhenSafe(rest, false, tail, after);
      RunThenOther(left, rest, tail, after);
    }
  }

  lemma RunThenEscape(left: nat, r: string, tail: string, after: string)
    requires tail != ""
    ensures EndsAt(ReadIndented(Run(left) + (Written(DOLLAR + r) + tail)), after)
            <==> left % 3 == 0 && Ends(r, false, tail, after)
  {
    WrittenDollar(r);
    Regroup("''${", Written(r), tail);
    RunBeforeEscape(left, Written(r) + tail, after);
  }

  lemma RunThenDollar(left: nat, r: string, tail: string, after: string)
    requires tail != "" && !(DOLLAR <= "$" + r)
    ensures EndsAt(ReadIndented(Run(left) + (Written("$" + r) + tail)), after)
            == if left % 3 == 2 then Ends(r, false, tail, after) else Ends("$" + r, false, tail, after)
  {
    WrittenOther('$', r);
    Regroup("$", Written(r), tail);
    var u := "$" + (Written(r) + tail);
    assert u[1..] == Written(r) + tail;
    RunBeforeDollar(left, u, after);
  }

  lemma RunThenBackslash(left: nat, r: string, tail: string, after: string)
    requires tail != ""
    ensures EndsAt(ReadIndented(Run(left) + (Written("\\" + r) + tail)), after)
            == if left % 3 == 2 then Ends(r, true, tail, after) else Ends("\\" + r, false, tail, after)
  {
    assert ("\\" + r)[0] == '\\' != DOLLAR[0];
    WrittenOther('\\', r);
    Regroup("\\", Written(r), tail);
    var u := "\\" + (Written(r) + tail);
    assert u[2..] == (Written(r) + tail)[1..];
    RunBeforeBackslash(left, u, after);
  }

  lemma RunThenOther(left: nat, rest: string, tail: string, after: string)
    requires Closes(tail, after) && (rest != "" ==> Ordinary(rest[0]) && rest[0] != '\\')
    ensures EndsAt(ReadIndented(Run(left) + (Written(rest) + tail)), after)
            <==> left % 3 != 2 && Ends(rest, false, tail, after)
  {
    StartsWith(rest, DOLLAR);
    WrittenHead(rest, tail);
    RunBeforeOrdinary(left, Written(rest) + tail, after);
  }

  lemma RunIsLeft(n: nat, rest: string, eaten: bool, tail: string)
    requires n > 0 && tail != "" && (rest != "" ==> rest[0] != '\'')
    ensures LeftOf(Run(n) + rest, eaten, tail) == Run(Doubled(n) - if eaten then 1 else 0) + (Written(rest) + tail)
  {
    WrittenRun(n, rest);
    Regroup(Run(Doubled(n)), Written(rest), tail);
    OneQuoteLess(Doubled(n), Written(rest) + tail);
  }

  lemma OneQuoteLess(n: nat, u: string)
    requires n > 0
    ensures Run(n) + u != "" && (Run(n) + u)[1..] == Run(n - 1) + u
  {
    Regroup("'", Run(n - 1), u);
    assert ("'" + (Run(n - 1) + u))[1..] == Run(n - 1) + u;
  }

  /// From the description to its text

  /** The description ends at its own closing quotes. */
  predicate IsClosed(description: string) {
    Safe(Trimmed(description), false)
  }

  /** What a description of several lines is escaped to ends at its own closing quotes exactly when its trimmed text is safe. */
  lemma IndentedReads(description: string, after: string)
    requires Follows(after)
    ensures var text := BetweenQuotes(Indented(description));
            ReadIndented(text + (QUOTES + after)) == Some((text, after)) <==> IsClosed(description)
  {
    var text, w := BetweenQuotes(Indented(description)), Indented(description);
    var tail := CLOSING + (QUOTES + after);
    BetweenRegroups(w, QUOTES + after);
    OrdinariesEnd(MARGIN, w + tail, after);
    EndsExactlyWhenSafe(Trimmed(description), false, tail, after);
    ReadIsThere(text + (QUOTES + after));
    if EndsAt(ReadIndented(text + (QUOTES + after)), after) {
      SamePrefix(text, ReadIndented(text + (QUOTES + after)).value.0, QUOTES + after);
    }
  }

  lemma SamePrefix(a: string, b: string, u: string)
    requires a + u == b + u
    ensures a == b
  {
    assert |a| == |b|;
    assert a == (a + u)[..|a|] && b == (b + u)[..|b|];
  }

  lemma BetweenRegroups(w: string, u: string)
    ensures BetweenQuotes(w) + u == MARGIN + (w + (CLOSING + u))
  {
    Regroup(MARGIN, w + CLOSING, u);
    Regroup(w, CLOSING, u);
  }

  lemma RunLengthOfRun(n: nat)
    ensures RunLength(Run(n)) == n && Run(n)[n..] == ""
  {
    RunIsQuotes(n);
    RunLengthMeans(Run(n));
    var k := RunLength(Run(n));
    forall i | 0 <= i < n ensures Run(n)[i] == '\'' {
      assert Run(n)[i] in Run(n);
    }
  }

  lemma {:induction false} DoubledModulo(n: nat)
    ensures Doubled(n) % 3 == 2 <==> n % 6 == 3 || n % 6 == 4
  {
    if n >= 6 {
      DoubledModulo(n - 6);
      SixMore(n - 6);
      SixAgain(n - 6);
    }
  }

  lemma SixMore(n: nat)
    ensures Doubled(n + 6) % 3 == Doubled(n) % 3
  {
    SixMoreHalves(n);
    TwelveMore(Doubled(n));
  }

  lemma SixMoreHalves(n: nat)
    ensures Doubled(n + 6) == Doubled(n) + 12
  {
    assert (n + 6) % 2 == n % 2;
  }

  lemma TwelveMore(n: nat)
    ensures (n + 12) % 3 == n % 3
  {}

  lemma SixAgain(n: nat)
    ensures (n + 6) % 6 == n % 6
  {}

  lemma QuotesAlone(s: string, n: nat)
    requires n > 0 && RunLength(s) == n && s[n..] == ""
    ensures Safe(s, false) <==> Doubled(n) % 3 != 2
  {
    assert SafeBehind(Doubled(n), "") <==> Doubled(n) % 3 != 2;
  }

  /** Exactly runs of three or four quotes, modulo six, close the string when nothing special follows. */
  lemma RunsOfThreeOrFour(n: nat)
    ensures Safe(Run(n), false) <==> n % 6 != 3 && n % 6 != 4
  {
    if n > 0 {
      RunLengthOfRun(n);
      QuotesAlone(Run(n), n);
      DoubledModulo(n);
    }
  }
}
