/**
  The links a spliced summary holds: which pages, in which order, under which
  titles, and what `parse` of cli/src/docs/summary.rs reads back from them.
 */
module SummaryLinks {
  import opened Prelude
  import opened Text
  import opened Strings
  import opened Ordering
  import opened Summary

  /// Titles

  /** The pages with a place of their own, in their order, with depth and title. */
  const PLACED: seq<(string, bool, string)> := [
    ("options/lab.md", false, "lab.*"),
    ("options/steps.md", true, "lab.steps.*"),
    ("options/cluster.md", false, "cluster.*"),
    ("options/bundles.md", true, "bundles.*"),
    ("options/floes/index.md", false, "floes.*")]

  predicate PlacedAt(page: string, i: nat) {
    i < |PLACED| && PLACED[i].0 == page
  }

  predicate IsFloe(page: string, name: string) {
    page == FLOES + (name + MARKDOWN)
  }

  lemma FloeName(page: string, name: string)
    requires IsFloe(page, name)
    ensures var rest := page[|FLOES|..]; rest == name + MARKDOWN && rest[..|rest| - |MARKDOWN|] == name
    ensures name != "index" ==> page != "options/floes/index.md"
  {
    if page == "options/floes/index.md" {
      assert page[|FLOES|..] == "index.md" && "index.md"[..5] == "index";
    }
  }

  lemma FloesAreTitled(name: string)
    requires name != "index"
    ensures Titled(FLOES + (name + MARKDOWN)) == Some((true, name))
  {
    var page := FLOES + (name + MARKDOWN);
    FloeName(page, name);
    assert page[8] == 'f';
    assert "options/lab.md"[8] == 'l' && "options/steps.md"[8] == 's';
    assert "options/cluster.md"[8] == 'c' && "options/bundles.md"[8] == 'b';
    assert page[0] == 'o' && "cli/commands.md"[0] == 'c';
  }

  lemma PlacedAreTitled(i: nat)
    requires i < |PLACED|
    ensures Titled(PLACED[i].0) == Some((PLACED[i].1, PLACED[i].2))
  {}

  /** The pages with a title are the placed ones, the commands, and the floes, each by its own name one level down. */
  lemma TitledExactly(page: string, deeper: bool, title: string)
    ensures Titled(page) == Some((deeper, title)) <==>
            || (exists i: nat :: PlacedAt(page, i) && PLACED[i].1 == deeper && PLACED[i].2 == title)
            || (page == "cli/commands.md" && !deeper && title == "Commands")
            || (IsFloe(page, title) && title != "index" && deeper)
  {
    if IsFloe(page, title) && title != "index" {
      FloesAreTitled(title);
    }
    if i: nat :| PlacedAt(page, i) {
      PlacedAreTitled(i);
    }
    if Titled(page) == Some((deeper, title)) {
      OnlyTheseAreTitled(page);
    }
  }

  lemma OnlyTheseAreTitled(page: string)
    requires Titled(page).Some?
    ensures var (deeper, title) := Titled(page).value;
            || (exists i: nat :: PlacedAt(page, i) && PLACED[i].1 == deeper && PLACED[i].2 == title)
            || (page == "cli/commands.md" && !deeper && title == "Commands")
            || (IsFloe(page, title) && title != "index" && deeper)
  {
    if page == "options/lab.md" {
      assert PlacedAt(page, 0);
    } else if page == "options/steps.md" {
      assert PlacedAt(page, 1);
    } else if page == "options/cluster.md" {
      assert PlacedAt(page, 2);
    } else if page == "options/bundles.md" {
      assert PlacedAt(page, 3);
    } else if page == "options/floes/index.md" {
      assert PlacedAt(page, 4);
    } else if page != "cli/commands.md" {
      FloePage(page);
    }
  }

  lemma FloeBranch(page: string)
    requires Titled(page).Some? && page != "options/floes/index.md" && page != "cli/commands.md"
    requires page != "options/lab.md" && page != "options/steps.md"
    requires page != "options/cluster.md" && page != "options/bundles.md"
    ensures FLOES <= page && Titled(page).value.0
    ensures page[|FLOES|..] == Titled(page).value.1 + MARKDOWN
  {}

  lemma FloePage(page: string)
    requires Titled(page).Some? && page != "options/floes/index.md" && page != "cli/commands.md"
    requires page != "options/lab.md" && page != "options/steps.md"
    requires page != "options/cluster.md" && page != "options/bundles.md"
    ensures Titled(page).value.0 && Titled(page).value.1 != "index" && IsFloe(page, Titled(page).value.1)
  {
    FloeBranch(page);
    assert page == FLOES + page[|FLOES|..];
    IndexPage();
  }

  lemma IndexPage()
    ensures FLOES + ("index" + MARKDOWN) == "options/floes/index.md"
  {}

  /// What stands under an anchor

  lemma {:induction false} SomesMean(pages: seq<string>, f: string -> Option<string>, line: string)
    ensures line in Somes(pages, f) <==> exists page :: page in pages && f(page) == Some(line)
  {
    if pages != [] {
      SomesMean(pages[1..], f, line);
      assert pages == [pages[0]] + pages[1..];
    }
  }

  lemma {:induction false} StartingMeans(pages: seq<string>, prefix: string, page: string)
    ensures page in Starting(pages, prefix) <==> page in pages && prefix <= page
  {
    if pages != [] {
      StartingMeans(pages[1..], prefix, page);
      assert pages == [pages[0]] + pages[1..];
    }
  }

  /** The group of pages an anchor line is for: options first. */
  function GroupOf(line: string): Option<string> {
    if Contains(line, "](./reference/options.md)") then Some("options/")
    else if Contains(line, "](./reference/cli.md)") then Some("cli/")
    else None
  }

  /** The link of a page, two spaces in or four. */
  predicate Links(entry: string, page: string, deeper: bool, title: string) {
    && Titled(page) == Some((deeper, title))
    && entry == (if deeper then "    " else "  ") + "- [" + title + "](./reference/" + page + ")"
  }

  lemma LinkedExactly(page: string, entry: string)
    ensures NavLine(page) == Some(entry) <==> exists deeper, title :: Links(entry, page, deeper, title)
  {
    if Titled(page).Some? {
      var (deeper, title) := Titled(page).value;
      EntryRegroups(if deeper then "    " else "  ", title, page);
      assert NavLine(page) == Some(entry) <==> Links(entry, page, deeper, title);
    }
  }

  lemma EntryRegroups(indent: string, title: string, page: string)
    ensures Entry(indent, title, page) == indent + "- [" + title + "](./reference/" + page + ")"
  {
    Regroup(indent, "- [", title + ("](./reference/" + (page + ")")));
    Regroup(indent + "- [", title, "](./reference/" + (page + ")"));
    Regroup(indent + "- [" + title, "](./reference/", page + ")");
    Regroup(indent + "- [" + title + "](./reference/", page, ")");
    assert "- [" + (title + ("](./reference/" + (page + ")"))) == "- [" + title + "](./reference/" + page + ")";
  }

  /** A line has a block exactly when it is an anchor, and the block links the titled pages of its group, and no others. */
  lemma UnderMeans(line: string, pages: seq<string>, entry: string)
    ensures Under(line, pages).Some? == GroupOf(line).Some?
    ensures Under(line, pages).Some? ==>
              (entry in Under(line, pages).value <==>
               exists page, deeper, title ::
                 page in pages && GroupOf(line).value <= page && Links(entry, page, deeper, title))
  {
    if GroupOf(line).Some? {
      BlockLists(pages, GroupOf(line).value, entry);
      forall page ensures NavLine(page) == Some(entry) <==> exists deeper, title :: Links(entry, page, deeper, title) {
        LinkedExactly(page, entry);
      }
    }
  }

  lemma BlockLists(pages: seq<string>, prefix: string, entry: string)
    ensures entry in NavBlock(Starting(pages, prefix)) <==>
            exists page :: page in pages && prefix <= page && NavLine(page) == Some(entry)
  {
    var group := Starting(pages, prefix);
    SomesMean(Sort(PAGE_LE, group), NavLine, entry);
    SortPermutes(PAGE_LE, group);
    forall page ensures page in Sort(PAGE_LE, group) <==> page in pages && prefix <= page {
      StartingMeans(pages, prefix, page);
      assert page in Sort(PAGE_LE, group) <==> page in multiset(Sort(PAGE_LE, group));
    }
  }

  /** The place a page is sorted to: its own, or behind them all. */
  lemma PlaceOf(page: string, i: nat)
    ensures PlacedAt(page, i) ==> Rank(page) == i
    ensures (forall j: nat :: !PlacedAt(page, j)) ==> Rank(page) == |PLACED|
  {
    if forall j: nat :: !PlacedAt(page, j) {
      assert !PlacedAt(page, 0) && !PlacedAt(page, 1) && !PlacedAt(page, 2) && !PlacedAt(page, 3) && !PlacedAt(page, 4);
    }
  }

  /** Placed pages come in the order of their places, before all others, and those by name. */
  lemma PagesInOrder(pages: seq<string>, i: nat, j: nat, p: nat, q: nat)
    requires i < j < |Sort(PAGE_LE, pages)|
    ensures var a, b := Sort(PAGE_LE, pages)[i], Sort(PAGE_LE, pages)[j];
            && (PlacedAt(a, p) && PlacedAt(b, q) ==> p <= q)
            && (PlacedAt(b, q) ==> exists k: nat :: PlacedAt(a, k))
            && ((forall k: nat :: !PlacedAt(a, k)) && (forall k: nat :: !PlacedAt(b, k)) ==> StringLe(a, b))
  {
    var a, b := Sort(PAGE_LE, pages)[i], Sort(PAGE_LE, pages)[j];
    PagesAreOrdered();
    SortSorts(PAGE_LE, pages);
    assert PAGE_LE(a, b);
    PlaceOf(a, p);
    PlaceOf(b, q);
  }

  /// What a splice replaces

  /** The line starts with a space and is not blank. */
  predicate Nested(line: string) {
    line != "" && line[0] == ' ' && exists i | 0 <= i < |line| :: !IsWhitespace(line[i])
  }

  lemma {:induction false} BlankTrims(s: string)
    requires forall i | 0 <= i < |s| :: IsWhitespace(s[i])
    ensures TrimStart(s) == ""
  {
    if s != "" {
      BlankTrims(s[1..]);
    }
  }

  lemma NestedIsIndented(line: string)
    ensures Indented(line) <==> Nested(line)
  {
    if i :| 0 <= i < |line| && !IsWhitespace(line[i]) {
      NotBlank(line, i);
    } else {
      BlankTrims(line);
    }
  }

  /** The lines that are not nested, in order. */
  function Outside(lines: seq<string>): seq<string> {
    if lines == [] then [] else (if Nested(lines[0]) then [] else [lines[0]]) + Outside(lines[1..])
  }

  lemma {:induction false} OutsideAppend(a: seq<string>, b: seq<string>)
    ensures Outside(a + b) == Outside(a) + Outside(b)
  {
    if a == [] {
      assert a + b == b;
    } else {
      assert (a + b)[1..] == a[1..] + b;
      OutsideAppend(a[1..], b);
    }
  }

  lemma {:induction false} NothingOutside(lines: seq<string>)
    requires forall i | 0 <= i < |lines| :: Indented(lines[i])
    ensures Outside(lines) == []
  {
    if lines != [] {
      NestedIsIndented(lines[0]);
      NothingOutside(lines[1..]);
    }
  }

  lemma {:induction false} DroppedAreNested(lines: seq<string>)
    ensures Outside(DropIndented(lines)) == Outside(lines)
  {
    if lines != [] && Indented(lines[0]) {
      NestedIsIndented(lines[0]);
      DroppedAreNested(lines[1..]);
    }
  }

  lemma {:induction false} OutsideSpliced(lines: seq<string>, under: Blocks)
    requires forall line :: BlocksAreIndented(under, line)
    ensures Outside(Splice(lines, under)) == Outside(lines)
    decreases |lines|
  {
    if lines != [] {
      var line, rest := lines[0], lines[1..];
      assert BlocksAreIndented(under, line) && lines == [line] + rest;
      if under(line).None? {
        OutsideSpliced(rest, under);
        BehindTheSame(line, Splice(rest, under), rest);
      } else {
        OutsideSpliced(DropIndented(rest), under);
        DroppedAreNested(rest);
        BlockIsNotOutside(under(line).value, Splice(DropIndented(rest), under));
        BehindTheSame(line, under(line).value + Splice(DropIndented(rest), under), rest);
      }
    }
  }

  lemma BehindTheSame(line: string, a: seq<string>, b: seq<string>)
    requires Outside(a) == Outside(b)
    ensures Outside([line] + a) == Outside([line] + b)
  {
    OutsideAppend([line], a);
    OutsideAppend([line], b);
  }

  lemma BlockIsNotOutside(block: seq<string>, rest: seq<string>)
    requires forall i | 0 <= i < |block| :: Indented(block[i])
    ensures Outside(block + rest) == Outside(rest)
  {
    NothingOutside(block);
    OutsideAppend(block, rest);
  }

  /** A splice removes and adds nested lines alone: the others are all there, in order. */
  lemma OtherLinesStay(lines: seq<string>, pages: seq<string>)
    ensures Outside(Splice(lines, BlocksFor(pages))) == Outside(lines)
  {
    forall line ensures BlocksAreIndented(BlocksFor(pages), line) {
      BlocksForAreIndented(pages, line);
    }
    OutsideSpliced(lines, BlocksFor(pages));
  }

  lemma {:induction false} RunIsDropped(lines: seq<string>, k: nat)
    requires k <= |lines| && (k < |lines| ==> !Nested(lines[k]))
    requires forall i | 0 <= i < k :: Nested(lines[i])
    ensures DropIndented(lines) == lines[k..]
  {
    if lines != [] {
      NestedIsIndented(lines[0]);
      if k > 0 {
        RunIsDropped(lines[1..], k - 1);
      }
    }
  }

  /** Under an anchor, the whole run of nested lines gives way to the block, and nothing after it does. */
  lemma AnchorReplacesItsRun(lines: seq<string>, pages: seq<string>, k: nat)
    requires lines != [] && Under(lines[0], pages).Some? && k < |lines|
    requires forall i | 1 <= i <= k :: Nested(lines[i])
    requires k + 1 < |lines| ==> !Nested(lines[k + 1])
    ensures Splice(lines, BlocksFor(pages)) ==
            [lines[0]] + (Under(lines[0], pages).value + Splice(lines[k + 1..], BlocksFor(pages)))
  {
    var rest := lines[1..];
    RunIsDropped(rest, k);
    assert rest[k..] == lines[k + 1..];
  }

  /// Reading the links back

  function StripEither(s: string, a: string, b: string): string {
    if a <= s then s[|a|..] else if b <= s then s[|b|..] else s
  }

  predicate EndsWith(s: string, suffix: string) {
    |suffix| <= |s| && s[|s| - |suffix|..] == suffix
  }

  /** `parse_link`: the title and the path of a link to a page of the book. */
  function ParseLink(line: string): Option<(string, string)> {
    var item := TrimStart(StripEither(TrimStart(line), "- ", "* "));
    if "[" <= item then LinkIn(item[1..]) else None
  }

  /** Behind the opening bracket. */
  function LinkIn(text: string): Option<(string, string)> {
    match SplitOnce(text, "](")
    case None => None
    case Some((title, rest)) => match PathIn(rest) case Some(path) => Some((title, path)) case None => None
  }

  /** Behind the opening parenthesis. */
  function PathIn(rest: string): Option<string> {
    match SplitOnce(rest, ")")
    case None => None
    case Some((target, _)) =>
      if "./" <= target && EndsWith(target[2..], MARKDOWN) then Some(target[2..]) else None
  }

  /** A title with no `](` inside can be split from what follows at the first. */
  lemma TitleEnds(title: string)
    ensures EndsAtSeparator(title, "](") <==> !Contains(title, "](")
  {
    ContainsMeans(title, "](");
    var s := title + "](";
    forall i: nat | i < |title| ensures StandsAt(s, "](", i) <==> StandsAt(title, "](", i) {
      if i + 2 <= |title| {
        assert s[i..i + 2] == title[i..i + 2];
      } else {
        assert s[i + 1] == ']';
        assert s[i..i + 2][1] == s[i + 1];
      }
    }
  }

  const PAGES := "./reference/"

  /** The line of an entry as the parser takes it apart. */
  lemma EntryIsItem(indent: string, title: string, page: string)
    requires indent == "  " || indent == "    "
    ensures var item := TrimStart(StripEither(TrimStart(Entry(indent, title, page)), "- ", "* "));
            "[" <= item && item[1..] == title + ("](" + (PAGES + (page + ")")))
  {
    var rest := "](./reference/" + (page + ")");
    assert "](" + (PAGES + (page + ")")) == rest;
    IndentIsTrimmed(indent, "- [" + (title + rest));
    var item := "[" + (title + rest);
    assert "- [" + (title + rest) == "- " + item;
    assert ("- " + item)[2..] == item && item[1..] == title + rest;
  }

  lemma IndentIsTrimmed(indent: string, item: string)
    requires (indent == "  " || indent == "    ") && item != "" && !IsWhitespace(item[0])
    ensures TrimStart(indent + item) == item
  {
    SpacesTrimmed(|indent|, indent, item);
  }

  lemma {:induction false} SpacesTrimmed(n: nat, spaces: string, item: string)
    requires |spaces| == n && (forall i | 0 <= i < n :: spaces[i] == ' ') && item != "" && !IsWhitespace(item[0])
    ensures TrimStart(spaces + item) == item
  {
    if n == 0 {
      assert spaces + item == item;
    } else {
      SpacesTrimmed(n - 1, spaces[1..], item);
      assert (spaces + item)[1..] == spaces[1..] + item;
    }
  }

  lemma PlacedAreMarkdown(i: nat)
    requires i < |PLACED|
    ensures EndsWith(PLACED[i].0, MARKDOWN)
  {}

  lemma TitledPagesAreMarkdown(page: string)
    requires Titled(page).Some?
    ensures EndsWith(page, MARKDOWN)
  {
    OnlyTheseAreTitled(page);
    if i: nat :| PlacedAt(page, i) {
      PlacedAreMarkdown(i);
    } else if IsFloe(page, Titled(page).value.1) {
      var name := Titled(page).value.1;
      assert page == (FLOES + name) + MARKDOWN;
    }
  }

  lemma StillEndsWith(head: string, s: string, suffix: string)
    requires EndsWith(s, suffix)
    ensures EndsWith(head + s, suffix)
  {
    assert (head + s)[|head + s| - |suffix|..] == s[|s| - |suffix|..];
  }

  /** The link of an entry reads back exactly when its title has no `](` inside, and its page no parenthesis. */
  lemma LinkReadsBack(page: string, line: string)
    requires NavLine(page) == Some(line)
    ensures Titled(page).Some?
    ensures var title := Titled(page).value.1;
            ParseLink(line) == Some((title, "reference/" + page)) <==> !Contains(title, "](") && ')' !in page
  {
    var (deeper, title) := Titled(page).value;
    EntryIsItem(if deeper then "    " else "  ", title, page);
    TitledPagesAreMarkdown(page);
    LinkInReadsBack(title, page);
  }

  lemma LinkInReadsBack(title: string, page: string)
    requires EndsWith(page, MARKDOWN)
    ensures LinkIn(title + ("](" + (PAGES + (page + ")")))) == Some((title, "reference/" + page))
            <==> !Contains(title, "](") && ')' !in page
  {
    var rest := PAGES + (page + ")");
    TitleEnds(title);
    SplitOnceFirst(title + ("](" + rest), "](");
    PathReadsBack(page);
    if !Contains(title, "](") {
      SplitOnceAt(title, "](", rest);
    }
  }

  lemma PathReadsBack(page: string)
    requires EndsWith(page, MARKDOWN)
    ensures PathIn(PAGES + (page + ")")) == Some("reference/" + page) <==> ')' !in page
  {
    var target, path := PAGES + page, "reference/" + page;
    assert PAGES + (page + ")") == target + (")" + "");
    StillEndsWith("reference/", page, MARKDOWN);
    assert "./" <= target && target[2..] == path;
    TargetReadsBack(page);
    if ')' in page {
      assert ')' in path;
    }
  }

  lemma TargetReadsBack(page: string)
    ensures var target := PAGES + page;
            var split := SplitOnce(target + (")" + ""), ")");
            if ')' in page then split.Some? && ')' !in split.value.0 else split == Some((target, ""))
  {
    var target := PAGES + page;
    EndsAtCharacter(target, ')');
    assert forall c :: c in target <==> c in PAGES || c in page;
    if ')' in page {
      SplitOnceFirst(target + (")" + ""), ")");
      SplitsSomewhere(target, ")", "");
      ContainsCharacter(SplitOnce(target + (")" + ""), ")").value.0, ')');
    } else {
      SplitOnceAt(target, ")", "");
    }
  }
}
