/** The generated part of a documentation summary. */
module Summary {
  import opened Prelude
  import opened Text
  import opened Strings
  import opened Ordering

  // cli/src/docs/summary.rs puts a block of links under each anchor line, in place
  // of whatever was indented there.

  /// The block

  const OPTIONS_ANCHOR := "](./reference/options.md)"
  const CLI_ANCHOR := "](./reference/cli.md)"

  function Entry(indent: string, title: string, page: string): string {
    indent + ("- [" + (title + ("](./reference/" + (page + ")"))))
  }

  const FLOES := "options/floes/"
  const MARKDOWN := ".md"

  /** The title of a page's link, and whether it is nested one level deeper. */
  function Titled(page: string): Option<(bool, string)> {
    if page == "options/lab.md" then Some((false, "lab.*"))
    else if page == "options/steps.md" then Some((true, "lab.steps.*"))
    else if page == "options/cluster.md" then Some((false, "cluster.*"))
    else if page == "options/bundles.md" then Some((true, "bundles.*"))
    else if page == "options/floes/index.md" then Some((false, "floes.*"))
    else if page == "cli/commands.md" then Some((false, "Commands"))
    else if FLOES <= page then
      var rest := page[|FLOES|..];
      if |MARKDOWN| <= |rest| && rest[|rest| - |MARKDOWN|..] == MARKDOWN
      then Some((true, rest[..|rest| - |MARKDOWN|]))
      else None
    else None
  }

  function NavLine(page: string): Option<string> {
    match Titled(page)
    case None => None
    case Some((deeper, title)) => Some(Entry(if deeper then "    " else "  ", title, page))
  }

  function Rank(page: string): nat {
    if page == "options/lab.md" then 0
    else if page == "options/steps.md" then 1
    else if page == "options/cluster.md" then 2
    else if page == "options/bundles.md" then 3
    else if page == "options/floes/index.md" then 4
    else 5
  }

  predicate PageLe(rank: string -> nat, a: string, b: string) {
    if rank(a) != rank(b) then rank(a) < rank(b) else StringLe(a, b)
  }

  const PAGE_LE: (string, string) -> bool := (a: string, b: string) => PageLe(Rank, a, b)

  function Somes(pages: seq<string>, f: string -> Option<string>): seq<string> {
    if pages == [] then []
    else (match f(pages[0]) case Some(line) => [line] case None => []) + Somes(pages[1..], f)
  }

  function NavBlock(pages: seq<string>): seq<string> {
    Somes(Sort(PAGE_LE, pages), NavLine)
  }

  function Starting(pages: seq<string>, prefix: string): seq<string> {
    if pages == [] then []
    else (if prefix <= pages[0] then [pages[0]] else []) + Starting(pages[1..], prefix)
  }

  /** The block an anchor line takes, if it is one. */
  function Under(line: string, pages: seq<string>): Option<seq<string>> {
    if Contains(line, OPTIONS_ANCHOR) then Some(NavBlock(Starting(pages, "options/")))
    else if Contains(line, CLI_ANCHOR) then Some(NavBlock(Starting(pages, "cli/")))
    else None
  }

  /// The splice

  predicate Indented(line: string) {
    line != "" && line[0] == ' ' && Trim(line) != ""
  }

  function DropIndented(lines: seq<string>): (rest: seq<string>)
    ensures |rest| <= |lines|
    ensures rest != [] ==> !Indented(rest[0])
  {
    if lines != [] && Indented(lines[0]) then DropIndented(lines[1..]) else lines
  }

  /** What each line is an anchor for. */
  type Blocks = string -> Option<seq<string>>

  function Splice(lines: seq<string>, under: Blocks): seq<string>
    decreases |lines|
  {
    if lines == [] then []
    else
      match under(lines[0])
      case None => [lines[0]] + Splice(lines[1..], under)
      case Some(block) => [lines[0]] + (block + Splice(DropIndented(lines[1..]), under))
  }

  function BlocksFor(pages: seq<string>): Blocks {
    (line: string) => Under(line, pages)
  }

  function SpliceNav(summary: string, pages: seq<string>): string {
    Join(Splice(Lines(summary), BlocksFor(pages))) + (if EndsInNewline(summary) then NEWLINE else "")
  }

  predicate EndsInNewline(s: string) {
    s != "" && s[|s| - 1] == '\n'
  }

  /** The whole of `splice_nav`: the lines spliced, joined, and closed as they were. */
  method SpliceText(summary: string, pages: seq<string>) returns (out: string)
    ensures out == SpliceNav(summary, pages)
  {
    var lines := SpliceBlocks(Lines(summary), BlocksFor(pages));
    out := Join(lines);
    if EndsInNewline(summary) {
      out := out + NEWLINE;
    } else {
      assert out == out + "";
    }
  }

  method SpliceBlocks(lines: seq<string>, under: Blocks) returns (out: seq<string>)
    ensures out == Splice(lines, under)
  {
    out := [];
    var i := 0;
    while i < |lines|
      invariant 0 <= i <= |lines|
      invariant out + Splice(lines[i..], under) == Splice(lines, under)
    {
      var line := lines[i];
      SpliceNext(lines, i, under, out);
      i := i + 1;
      out := out + [line];
      var block := under(line);
      if block.None? {
        continue;
      }
      ghost var after := DropIndented(lines[i..]);
      while i < |lines| && Indented(lines[i])
        invariant 0 <= i <= |lines|
        invariant DropIndented(lines[i..]) == after
      {
        assert lines[i..][1..] == lines[i + 1..];
        i := i + 1;
      }
      assert lines[i..] == after;
      out := out + block.value;
    }
  }

  lemma SpliceNext(lines: seq<string>, i: nat, under: Blocks, out: seq<string>)
    requires i < |lines|
    ensures match under(lines[i])
            case None => out + Splice(lines[i..], under) == out + [lines[i]] + Splice(lines[i + 1..], under)
            case Some(block) =>
              out + Splice(lines[i..], under) == out + [lines[i]] + block + Splice(DropIndented(lines[i + 1..]), under)
  {
    assert lines[i..][1..] == lines[i + 1..];
  }

  /// Splicing twice

  predicate BlocksAreIndented(under: Blocks, line: string) {
    match under(line)
    case None => true
    case Some(block) => forall i | 0 <= i < |block| :: Indented(block[i])
  }

  lemma {:induction false} DropBlock(block: seq<string>, rest: seq<string>)
    requires forall i | 0 <= i < |block| :: Indented(block[i])
    requires rest != [] ==> !Indented(rest[0])
    ensures DropIndented(block + rest) == rest
  {
    if block == [] {
      assert block + rest == rest;
    } else {
      assert (block + rest)[1..] == block[1..] + rest;
      DropBlock(block[1..], rest);
    }
  }

  lemma SpliceKeepsHead(lines: seq<string>, under: Blocks)
    ensures lines == [] ==> Splice(lines, under) == []
    ensures lines != [] ==> Splice(lines, under) != [] && Splice(lines, under)[0] == lines[0]
  {}

  lemma {:induction false} SplicingAgain(lines: seq<string>, under: Blocks)
    requires forall line :: BlocksAreIndented(under, line)
    ensures Splice(Splice(lines, under), under) == Splice(lines, under)
    decreases |lines|
  {
    if lines != [] {
      var line := lines[0];
      assert BlocksAreIndented(under, line);
      if under(line).None? {
        SplicingAgain(lines[1..], under);
        assert Splice(lines, under)[1..] == Splice(lines[1..], under);
      } else {
        var block, rest := under(line).value, DropIndented(lines[1..]);
        SplicingAgain(rest, under);
        SpliceKeepsHead(rest, under);
        assert Splice(lines, under)[1..] == block + Splice(rest, under);
        DropBlock(block, Splice(rest, under));
      }
    }
  }

  lemma {:induction false} NotBlank(line: string, i: nat)
    requires i < |line| && !IsWhitespace(line[i])
    ensures Trim(line) != ""
    decreases |line|
  {
    var j := TrimStartKeeps(line, i);
    TrimEndKeeps(TrimStart(line), j);
  }

  lemma {:induction false} TrimStartKeeps(s: string, i: nat) returns (j: nat)
    requires i < |s| && !IsWhitespace(s[i])
    ensures j < |TrimStart(s)| && !IsWhitespace(TrimStart(s)[j])
    decreases |s|
  {
    if IsWhitespace(s[0]) {
      j := TrimStartKeeps(s[1..], i - 1);
    } else {
      j := i;
    }
  }

  lemma {:induction false} TrimEndKeeps(s: string, i: nat)
    requires i < |s| && !IsWhitespace(s[i])
    ensures TrimEnd(s) != ""
    decreases |s|
  {
    if IsWhitespace(s[|s| - 1]) {
      TrimEndKeeps(s[..|s| - 1], i);
    }
  }

  lemma EntryIsIndented(indent: string, title: string, page: string)
    requires indent == "  " || indent == "    "
    ensures Indented(Entry(indent, title, page))
    ensures Entry(indent, title, page)[|Entry(indent, title, page)| - 1] == ')'
    ensures '\n' !in title && '\n' !in page ==> '\n' !in Entry(indent, title, page)
  {
    var line := Entry(indent, title, page);
    assert line[|indent|] == '-';
    NotBlank(line, |indent|);
  }

  /** A line of a block: indented, closed by a parenthesis, and on one line if its page is. */
  predicate BlockLine(page: string, line: string) {
    Indented(line) && line[|line| - 1] == ')' && ('\n' !in page ==> '\n' !in line)
  }

  lemma TitleIsOneLine(page: string)
    requires Titled(page).Some? && '\n' !in page
    ensures '\n' !in Titled(page).value.1
  {}

  lemma NavLineIsBlockLine(page: string)
    ensures NavLine(page).Some? ==> BlockLine(page, NavLine(page).value)
  {
    var titled := Titled(page);
    if titled.Some? {
      EntryIsIndented(if titled.value.0 then "    " else "  ", titled.value.1, page);
      if '\n' !in page {
        TitleIsOneLine(page);
      }
    }
  }

  lemma {:induction false} SomesComeFrom(pages: seq<string>, f: string -> Option<string>, line: string)
    requires line in Somes(pages, f)
    ensures exists page :: page in pages && f(page) == Some(line)
  {
    if f(pages[0]) != Some(line) {
      SomesComeFrom(pages[1..], f, line);
    }
  }

  lemma {:induction false} StartingIsPart(pages: seq<string>, prefix: string, page: string)
    requires page in Starting(pages, prefix)
    ensures page in pages
  {
    if page != pages[0] {
      StartingIsPart(pages[1..], prefix, page);
    }
  }

  lemma BlockLinesOf(pages: seq<string>, line: string)
    requires line in NavBlock(pages)
    ensures exists page :: page in pages && BlockLine(page, line)
  {
    SomesComeFrom(Sort(PAGE_LE, pages), NavLine, line);
    var page :| page in Sort(PAGE_LE, pages) && NavLine(page) == Some(line);
    SortPermutes(PAGE_LE, pages);
    assert page in multiset(Sort(PAGE_LE, pages));
    NavLineIsBlockLine(page);
  }

  lemma BlockLinesUnder(line: string, pages: seq<string>, entry: string)
    requires Under(line, pages).Some? && entry in Under(line, pages).value
    ensures exists page :: page in pages && BlockLine(page, entry)
  {
    var prefix := if Contains(line, OPTIONS_ANCHOR) then "options/" else "cli/";
    BlockLinesOf(Starting(pages, prefix), entry);
    var page :| page in Starting(pages, prefix) && BlockLine(page, entry);
    StartingIsPart(pages, prefix, page);
  }

  lemma BlocksForAreIndented(pages: seq<string>, line: string)
    ensures BlocksAreIndented(BlocksFor(pages), line)
  {
    var block := BlocksFor(pages)(line);
    if block.Some? {
      forall i | 0 <= i < |block.value| ensures Indented(block.value[i]) {
        BlockLinesUnder(line, pages, block.value[i]);
      }
    }
  }

  /** On lines, splicing a second time changes nothing, whatever the lines and the pages. */
  lemma SpliceIsIdempotent(lines: seq<string>, pages: seq<string>)
    ensures var once := Splice(lines, BlocksFor(pages)); Splice(once, BlocksFor(pages)) == once
  {
    forall line ensures BlocksAreIndented(BlocksFor(pages), line) {
      BlocksForAreIndented(pages, line);
    }
    SplicingAgain(lines, BlocksFor(pages));
  }

  /// What is kept

  /** The lines that are not under an anchor. */
  function Skeleton(lines: seq<string>, under: Blocks): seq<string>
    decreases |lines|
  {
    if lines == [] then []
    else [lines[0]] + Skeleton(if under(lines[0]).Some? then DropIndented(lines[1..]) else lines[1..], under)
  }

  lemma {:induction false} SkeletonIsKept(lines: seq<string>, under: Blocks)
    requires forall line :: BlocksAreIndented(under, line)
    ensures Skeleton(Splice(lines, under), under) == Skeleton(lines, under)
    decreases |lines|
  {
    if lines != [] {
      var line := lines[0];
      assert BlocksAreIndented(under, line);
      if under(line).None? {
        SkeletonIsKept(lines[1..], under);
        assert Splice(lines, under)[1..] == Splice(lines[1..], under);
      } else {
        var block, rest := under(line).value, DropIndented(lines[1..]);
        SkeletonIsKept(rest, under);
        SpliceKeepsHead(rest, under);
        assert Splice(lines, under)[1..] == block + Splice(rest, under);
        DropBlock(block, Splice(rest, under));
      }
    }
  }

  /** The lines outside the replaced subtrees all stay, in order, and nothing joins them. */
  lemma SplicePreservesTheRest(lines: seq<string>, pages: seq<string>)
    ensures Skeleton(Splice(lines, BlocksFor(pages)), BlocksFor(pages)) == Skeleton(lines, BlocksFor(pages))
  {
    forall line ensures BlocksAreIndented(BlocksFor(pages), line) {
      BlocksForAreIndented(pages, line);
    }
    SkeletonIsKept(lines, BlocksFor(pages));
  }

  /// The order of the pages

  lemma PagesAreOrdered()
    ensures TotalOrder(PAGE_LE)
  {
    forall a, b ensures (PAGE_LE(a, b) || PAGE_LE(b, a)) && (PAGE_LE(a, b) && PAGE_LE(b, a) ==> a == b) {
      PageLeTotal(Rank, a, b);
    }
    forall a, b, c | PAGE_LE(a, b) && PAGE_LE(b, c) ensures PAGE_LE(a, c) {
      PageLeTransitive(Rank, a, b, c);
    }
  }

  lemma PageLeTotal(rank: string -> nat, a: string, b: string)
    ensures PageLe(rank, a, b) || PageLe(rank, b, a)
    ensures PageLe(rank, a, b) && PageLe(rank, b, a) ==> a == b
  {
    StringLeTotal(a, b);
  }

  lemma PageLeTransitive(rank: string -> nat, a: string, b: string, c: string)
    requires PageLe(rank, a, b) && PageLe(rank, b, c)
    ensures PageLe(rank, a, c)
  {
    if rank(a) == rank(b) == rank(c) {
      StringLeTransitive(a, b, c);
    }
  }

  function Kept(page: string, prefix: string): multiset<string> {
    if prefix <= page then multiset{page} else multiset{}
  }

  lemma {:induction false} StartingAppend(a: seq<string>, b: seq<string>, prefix: string)
    ensures Starting(a + b, prefix) == Starting(a, prefix) + Starting(b, prefix)
  {
    if a == [] {
      assert a + b == b;
    } else {
      assert (a + b)[1..] == a[1..] + b;
      StartingAppend(a[1..], b, prefix);
    }
  }

  lemma StartingWithOut(pages: seq<string>, i: nat, prefix: string)
    requires i < |pages|
    ensures multiset(Starting(pages, prefix)) ==
            Kept(pages[i], prefix) + multiset(Starting(pages[..i] + pages[i + 1..], prefix))
    ensures multiset(pages[..i] + pages[i + 1..]) == multiset(pages) - multiset{pages[i]}
  {
    var front, back := pages[..i], pages[i..];
    assert pages == front + back && back[1..] == pages[i + 1..] && back == [pages[i]] + back[1..];
    StartingAppend(front, back, prefix);
    StartingAppend(front, back[1..], prefix);
  }

  lemma {:induction false} StartingPermuted(a: seq<string>, b: seq<string>, prefix: string)
    requires multiset(a) == multiset(b)
    ensures multiset(Starting(a, prefix)) == multiset(Starting(b, prefix))
    decreases |a|
  {
    assert |a| == |multiset(a)| == |multiset(b)| == |b|;
    if a != [] {
      assert a[0] in multiset(b);
      var i :| 0 <= i < |b| && b[i] == a[0];
      TailMultiset(a);
      StartingWithOut(b, i, prefix);
      StartingPermuted(a[1..], b[..i] + b[i + 1..], prefix);
    }
  }

  lemma SameBlocks(a: seq<string>, b: seq<string>, line: string)
    requires multiset(a) == multiset(b)
    ensures Under(line, a) == Under(line, b)
  {
    PagesAreOrdered();
    StartingPermuted(a, b, "options/");
    StartingPermuted(a, b, "cli/");
    SortForgetsOrder(PAGE_LE, Starting(a, "options/"), Starting(b, "options/"));
    SortForgetsOrder(PAGE_LE, Starting(a, "cli/"), Starting(b, "cli/"));
  }

  lemma {:induction false} SameBlocksSameSplice(lines: seq<string>, f: Blocks, g: Blocks)
    requires forall line :: f(line) == g(line)
    ensures Splice(lines, f) == Splice(lines, g)
    decreases |lines|
  {
    if lines != [] {
      SameBlocksSameSplice(lines[1..], f, g);
      SameBlocksSameSplice(DropIndented(lines[1..]), f, g);
    }
  }

  /** The order the pages come in does not matter. */
  lemma PageOrderDoesNotMatter(summary: string, a: seq<string>, b: seq<string>)
    requires multiset(a) == multiset(b)
    ensures SpliceNav(summary, a) == SpliceNav(summary, b)
  {
    var f, g := BlocksFor(a), BlocksFor(b);
    forall line ensures f(line) == g(line) {
      SameBlocks(a, b, line);
    }
    SameBlocksSameSplice(Lines(summary), f, g);
  }
}
