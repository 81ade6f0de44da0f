/** Splicing a summary twice, as text: lines are split and joined around each splice. */
module SummaryText {
  import opened Prelude
  import opened Text
  import opened Strings
  import opened Summary

  lemma {:induction false} StrippingShortens(lines: seq<string>)
    ensures |Join(StripAll(lines))| <= |Join(lines)|
    ensures StripAll(lines) != lines ==> |Join(StripAll(lines))| < |Join(lines)|
    decreases |lines|
  {
    if |lines| > 1 {
      StrippingShortens(lines[1..]);
      assert StripAll(lines)[1..] == StripAll(lines[1..]);
      assert lines == [lines[0]] + lines[1..];
    } else if |lines| == 1 {
      assert lines == [lines[0]] && StripAll(lines) == [StripReturn(lines[0])];
    }
  }

  /// A carriage return at the end of a line does not matter to the splice

  lemma BlankMeans(s: string)
    ensures Trim(s) != "" <==> exists i :: 0 <= i < |s| && !IsWhitespace(s[i])
  {
    if Trim(s) != "" {
      TrimIsTight(s);
      assert Trim(s)[0] in s;
    }
    if i :| 0 <= i < |s| && !IsWhitespace(s[i]) {
      NotBlank(s, i);
    }
  }

  lemma StrippedIsIndented(line: string)
    ensures Indented(StripReturn(line)) == Indented(line)
  {
    BlankMeans(line);
    BlankMeans(StripReturn(line));
    var x := StripReturn(line);
    assert forall i | 0 <= i < |x| :: x[i] == line[i];
    assert forall i | |x| <= i < |line| :: line[i] == '\r' && IsWhitespace(line[i]);
  }

  lemma StrippedContains(line: string, anchor: string)
    requires anchor != "" && '\r' !in anchor
    ensures Contains(StripReturn(line), anchor) == Contains(line, anchor)
  {
    var x := StripReturn(line);
    ContainsMeans(line, anchor);
    ContainsMeans(x, anchor);
    forall i: nat ensures StandsAt(line, anchor, i) <==> StandsAt(x, anchor, i) {
      if StandsAt(line, anchor, i) {
        assert line[i..i + |anchor|][|anchor| - 1] == line[i + |anchor| - 1] == anchor[|anchor| - 1];
        assert i + |anchor| <= |x|;
        assert x[i..i + |anchor|] == line[i..i + |anchor|];
      }
      if StandsAt(x, anchor, i) {
        assert x[i..i + |anchor|] == line[i..i + |anchor|];
      }
    }
  }

  lemma StrippedAnchors(line: string, pages: seq<string>)
    ensures Under(StripReturn(line), pages) == Under(line, pages)
  {
    StrippedContains(line, OPTIONS_ANCHOR);
    StrippedContains(line, CLI_ANCHOR);
  }

  lemma BlockLinesStand(line: string, pages: seq<string>)
    ensures Under(line, pages).Some? ==> StripAll(Under(line, pages).value) == Under(line, pages).value
  {
    if Under(line, pages).Some? {
      var block := Under(line, pages).value;
      forall i | 0 <= i < |block| ensures StripReturn(block[i]) == block[i] {
        BlockLinesUnder(line, pages, block[i]);
      }
    }
  }

  predicate ReturnBlind(under: Blocks, line: string) {
    && under(StripReturn(line)) == under(line)
    && Indented(StripReturn(line)) == Indented(line)
    && (under(line).Some? ==> StripAll(under(line).value) == under(line).value)
  }

  lemma BlocksForAreBlind(pages: seq<string>, line: string)
    ensures ReturnBlind(BlocksFor(pages), line)
  {
    StrippedIsIndented(line);
    StrippedAnchors(line, pages);
    BlockLinesStand(line, pages);
  }

  lemma {:induction false} DropStripped(lines: seq<string>, under: Blocks)
    requires forall line :: ReturnBlind(under, line)
    ensures DropIndented(StripAll(lines)) == StripAll(DropIndented(lines))
    decreases |lines|
  {
    if lines != [] {
      assert ReturnBlind(under, lines[0]);
      assert StripAll(lines)[1..] == StripAll(lines[1..]);
      if Indented(lines[0]) {
        DropStripped(lines[1..], under);
      }
    }
  }

  lemma {:induction false} SpliceStripped(lines: seq<string>, under: Blocks)
    requires forall line :: ReturnBlind(under, line)
    ensures Splice(StripAll(lines), under) == StripAll(Splice(lines, under))
    decreases |lines|
  {
    if lines != [] {
      var line, s := lines[0], StripAll(lines);
      assert ReturnBlind(under, line);
      assert s[0] == StripReturn(line) && s[1..] == StripAll(lines[1..]);
      if under(line).None? {
        SpliceStripped(lines[1..], under);
        StripNext(line, Splice(lines[1..], under));
      } else {
        var block, rest := under(line).value, DropIndented(lines[1..]);
        DropStripped(lines[1..], under);
        SpliceStripped(rest, under);
        StripNext(line, block + Splice(rest, under));
        StripBlock(block, Splice(rest, under));
      }
    }
  }

  lemma StripNext(line: string, lines: seq<string>)
    ensures StripAll([line] + lines) == [StripReturn(line)] + StripAll(lines)
  {}

  lemma StripBlock(block: seq<string>, lines: seq<string>)
    requires StripAll(block) == block
    ensures StripAll(block + lines) == block + StripAll(lines)
  {
    assert forall i | 0 <= i < |block| :: StripReturn(block[i]) == StripAll(block)[i] == block[i];
  }

  /// Whole texts

  predicate OneLinePages(pages: seq<string>) {
    forall i | 0 <= i < |pages| :: OneLine(pages[i])
  }

  lemma {:induction false} SplicedAreOneLine(lines: seq<string>, pages: seq<string>)
    requires AllOneLine(lines) && OneLinePages(pages)
    ensures AllOneLine(Splice(lines, BlocksFor(pages)))
    decreases |lines|
  {
    if lines != [] {
      var block := BlocksFor(pages)(lines[0]);
      if block.None? {
        SplicedAreOneLine(lines[1..], pages);
      } else {
        DropKeeps(lines[1..]);
        SplicedAreOneLine(DropIndented(lines[1..]), pages);
        forall i | 0 <= i < |block.value| ensures OneLine(block.value[i]) {
          BlockLinesUnder(lines[0], pages, block.value[i]);
        }
      }
    }
  }

  lemma {:induction false} DropKeeps(lines: seq<string>)
    ensures exists k :: 0 <= k <= |lines| && DropIndented(lines) == lines[k..]
    decreases |lines|
  {
    if lines != [] && Indented(lines[0]) {
      DropKeeps(lines[1..]);
      var k :| 0 <= k <= |lines| - 1 && DropIndented(lines[1..]) == lines[1..][k..];
      assert lines[1..][k..] == lines[k + 1..];
    } else {
      assert lines[0..] == lines;
    }
  }

  lemma LinesAllOneLine(s: string)
    ensures AllOneLine(Lines(s))
  {
    forall i | 0 <= i < |Lines(s)| ensures OneLine(Lines(s)[i]) {
      LinesAreOneLine(s, Lines(s)[i]);
    }
  }

  /** The lines of the summary that stay: those outside the subtrees replaced. */
  function KeptLines(summary: string, pages: seq<string>): seq<string> {
    Skeleton(Lines(summary), BlocksFor(pages))
  }

  /** What is spliced in ends in no carriage return, so only the lines kept can. */
  lemma {:induction false} KeptDecide(lines: seq<string>, under: Blocks)
    requires forall line :: ReturnBlind(under, line)
    ensures StripAll(Splice(lines, under)) == Splice(lines, under) <==> NoReturns(Skeleton(lines, under))
    decreases |lines|
  {
    if lines != [] {
      var line, block := lines[0], under(lines[0]);
      assert ReturnBlind(under, line);
      var rest := if block.Some? then DropIndented(lines[1..]) else lines[1..];
      KeptDecide(rest, under);
      StripParts([line], (if block.Some? then block.value else []) + Splice(rest, under));
      if block.Some? {
        StripParts(block.value, Splice(rest, under));
      } else {
        assert [] + Splice(rest, under) == Splice(rest, under);
      }
      StandsNext(line, Skeleton(rest, under));
    }
  }

  predicate NoReturns(lines: seq<string>) {
    forall line | line in lines :: StripReturn(line) == line
  }

  lemma StandsNext(line: string, kept: seq<string>)
    ensures NoReturns([line] + kept) <==> StripAll([line]) == [line] && NoReturns(kept)
  {
    assert StripAll([line]) == [StripReturn(line)];
    assert [line][0] in [line] + kept;
    assert forall x | x in kept :: x in [line] + kept;
  }

  lemma StripParts(a: seq<string>, b: seq<string>)
    ensures StripAll(a + b) == a + b <==> StripAll(a) == a && StripAll(b) == b
  {
    var x, y := StripAll(a), StripAll(b);
    assert StripAll(a + b) == x + y;
    assert (x + y)[..|a|] == x && (x + y)[|a|..] == y && (a + b)[..|a|] == a && (a + b)[|a|..] == b;
  }

  /**
    A summary that ends in a newline is spliced to a text that splices to itself
    exactly when none of the lines kept ends in a carriage return, besides the
    one that closes it with its newline.
   */
  lemma TextIsStableExactlyWithoutReturns(summary: string, pages: seq<string>)
    requires EndsInNewline(summary) && OneLinePages(pages)
    ensures var once := SpliceNav(summary, pages);
            SpliceNav(once, pages) == once <==> NoReturns(KeptLines(summary, pages))
  {
    var under := BlocksFor(pages);
    var lines := Splice(Lines(summary), under);
    var once := SpliceNav(summary, pages);
    LinesAllOneLine(summary);
    SplicedAreOneLine(Lines(summary), pages);
    SpliceKeepsHead(Lines(summary), under);
    LinesOfClosedJoin(lines);
    forall line ensures ReturnBlind(under, line) {
      BlocksForAreBlind(pages, line);
    }
    SpliceStripped(lines, under);
    SpliceIsIdempotent(Lines(summary), pages);
    assert once == Join(lines) + NEWLINE && EndsInNewline(once);
    assert SpliceNav(once, pages) == Join(StripAll(lines)) + NEWLINE;
    StrippingShortens(lines);
    KeptDecide(Lines(summary), under);
  }

  /** A line closed by two carriage returns loses one on each pass. */
  lemma DoubledReturnsFade(pages: seq<string>)
    requires OneLinePages(pages)
    ensures SpliceNav(SpliceNav("\r\r\n", pages), pages) != SpliceNav("\r\r\n", pages)
  {
    var s := "\r\r\n";
    assert s == "\r\r" + NEWLINE + [];
    FirstLine("\r\r", []);
    assert "\r\r"[..1] == "\r";
    assert Lines(s) == ["\r"];
    assert ["\r"][1..] == [];
    assert Skeleton(["\r"], BlocksFor(pages)) == ["\r"] + Skeleton([], BlocksFor(pages));
    assert KeptLines(s, pages)[0] == "\r" && StripReturn("\r") == "";
    TextIsStableExactlyWithoutReturns(s, pages);
  }

  /// Texts without a closing newline

  lemma RestOfOpen(s: string, i: nat)
    requires s != "" && !EndsInNewline(s) && i < |s| && s[i] == '\n'
    ensures s[i + 1..] != "" && !EndsInNewline(s[i + 1..])
  {
    assert i < |s| - 1;
    assert s[|s| - 1] == s[i + 1..][|s| - i - 2];
  }

  predicate LastIsFull(lines: seq<string>) {
    lines != [] && lines[|lines| - 1] != ""
  }

  lemma LinesBehind(s: string, i: nat)
    requires i == LineEnd(s) < |s|
    ensures Lines(s) == [StripReturn(s[..i])] + Lines(s[i + 1..])
  {}

  lemma LastStaysFull(first: string, rest: seq<string>)
    requires LastIsFull(rest)
    ensures LastIsFull([first] + rest)
  {}

  lemma {:induction false} LastLineIsFull(s: string)
    requires s != "" && !EndsInNewline(s)
    ensures LastIsFull(Lines(s))
    decreases |s|
  {
    var i := LineEnd(s);
    if i < |s| {
      RestOfOpen(s, i);
      LastLineIsFull(s[i + 1..]);
      LinesBehind(s, i);
      LastStaysFull(StripReturn(s[..i]), Lines(s[i + 1..]));
    }
  }

  /** Neither an anchor nor a line of its block is empty. */
  predicate FullBlocks(under: Blocks, line: string) {
    under(line).Some? ==> line != "" && forall i | 0 <= i < |under(line).value| :: under(line).value[i] != ""
  }

  lemma BlocksForAreFull(pages: seq<string>, line: string)
    ensures FullBlocks(BlocksFor(pages), line)
  {
    BlocksForAreIndented(pages, line);
  }

  lemma {:induction false} SplicedLastIsFull(lines: seq<string>, under: Blocks)
    requires LastIsFull(lines)
    requires forall line :: FullBlocks(under, line)
    ensures LastIsFull(Splice(lines, under))
    decreases |lines|
  {
    assert FullBlocks(under, lines[0]);
    var rest := if under(lines[0]).None? then lines[1..] else DropIndented(lines[1..]);
    DropKeeps(lines[1..]);
    if rest != [] {
      SplicedLastIsFull(rest, under);
    } else {
      assert Splice(rest, under) == [];
    }
  }

  /** Each line of `b` is the line of `a`, with or without its carriage return. */
  predicate Stripped(a: seq<string>, b: seq<string>) {
    |a| == |b| && forall i | 0 <= i < |a| :: b[i] == a[i] || b[i] == StripReturn(a[i])
  }

  lemma BlockStripped(block: seq<string>, a: seq<string>, b: seq<string>)
    requires StripAll(block) == block && Stripped(block + a, b)
    ensures |block| <= |b| && b == block + b[|block|..] && Stripped(a, b[|block|..])
  {
    forall i | 0 <= i < |block| ensures b[i] == block[i] {
      assert (block + a)[i] == block[i] && StripAll(block)[i] == StripReturn(block[i]);
    }
    assert forall i | 0 <= i < |a| :: (block + a)[|block| + i] == a[i];
  }

  /** Behind an anchor and its block, lines a splice leaves alone are left alone as well. */
  lemma KeptBehind(a: seq<string>, block: seq<string>, under: Blocks) returns (kept: seq<string>)
    requires a != [] && Splice(a, under) == a && under(a[0]) == Some(block) && BlocksAreIndented(under, a[0])
    ensures a[1..] == block + kept && |kept| < |a| && Splice(kept, under) == kept
    ensures kept != [] ==> !Indented(kept[0])
  {
    var rest := DropIndented(a[1..]);
    kept := Splice(rest, under);
    assert Splice(a, under)[1..] == block + kept;
    SpliceKeepsHead(rest, under);
    DropBlock(block, kept);
  }

  /** Lines a splice leaves alone are left alone without their carriage returns, too. */
  lemma {:induction false} StrippedStays(a: seq<string>, b: seq<string>, under: Blocks)
    requires forall line :: ReturnBlind(under, line) && BlocksAreIndented(under, line)
    requires Splice(a, under) == a && Stripped(a, b)
    ensures Splice(b, under) == b
    decreases |a|
  {
    if a != [] {
      assert ReturnBlind(under, a[0]) && BlocksAreIndented(under, a[0]);
      assert under(b[0]) == under(a[0]);
      if under(a[0]).None? {
        assert Splice(a, under)[1..] == Splice(a[1..], under);
        StrippedStays(a[1..], b[1..], under);
        PlainStays(b, under);
      } else {
        var block := under(a[0]).value;
        var kept := KeptBehind(a, block, under);
        BlockStripped(block, kept, b[1..]);
        var left := b[1..][|block|..];
        StrippedHead(kept, left, under);
        StrippedStays(kept, left, under);
        AnchorStays(b, block, left, under);
      }
    }
  }

  lemma PlainStays(b: seq<string>, under: Blocks)
    requires b != [] && under(b[0]).None? && Splice(b[1..], under) == b[1..]
    ensures Splice(b, under) == b
  {
    assert b == [b[0]] + b[1..];
  }

  lemma AnchorStays(b: seq<string>, block: seq<string>, left: seq<string>, under: Blocks)
    requires b != [] && under(b[0]) == Some(block) && BlocksAreIndented(under, b[0])
    requires b[1..] == block + left && (left != [] ==> !Indented(left[0])) && Splice(left, under) == left
    ensures Splice(b, under) == b
  {
    DropBlock(block, left);
    assert b == [b[0]] + b[1..];
  }

  lemma StrippedHead(a: seq<string>, b: seq<string>, under: Blocks)
    requires forall line :: ReturnBlind(under, line)
    requires Stripped(a, b) && (a != [] ==> !Indented(a[0]))
    ensures b != [] ==> !Indented(b[0])
  {
    if b != [] {
      assert ReturnBlind(under, a[0]);
    }
  }

  /** Something is spliced in behind the line. */
  predicate IsFollowed(line: string, under: Blocks) {
    under(line).Some? && under(line).value != []
  }

  /** No line kept ends in a carriage return, but for the last one when nothing is spliced in behind it. */
  predicate ReturnsAtTheEndAlone(kept: seq<string>, under: Blocks) {
    forall i | 0 <= i < |kept| && (i < |kept| - 1 || IsFollowed(kept[i], under)) :: StripReturn(kept[i]) == kept[i]
  }

  predicate AllButTheLastStand(lines: seq<string>) {
    forall i | 0 <= i < |lines| - 1 :: StripReturn(lines[i]) == lines[i]
  }

  lemma StandBefore(a: seq<string>, b: seq<string>)
    requires a != []
    ensures AllButTheLastStand(a + b) <==>
            AllButTheLastStand(a) && (b != [] ==> StripReturn(a[|a| - 1]) == a[|a| - 1]) && AllButTheLastStand(b)
  {
    assert forall i | 0 <= i < |a| :: (a + b)[i] == a[i];
    assert forall i | 0 <= i < |b| :: (a + b)[|a| + i] == b[i];
  }

  lemma EndAloneNext(line: string, kept: seq<string>, under: Blocks)
    ensures ReturnsAtTheEndAlone([line] + kept, under) <==>
            (kept != [] || IsFollowed(line, under) ==> StripReturn(line) == line) && ReturnsAtTheEndAlone(kept, under)
  {
    assert forall i | 0 <= i < |kept| :: ([line] + kept)[i + 1] == kept[i];
    assert ([line] + kept)[0] == line;
  }

  lemma {:induction false} KeptDecideOpen(lines: seq<string>, under: Blocks)
    requires forall line :: ReturnBlind(under, line)
    ensures AllButTheLastStand(Splice(lines, under)) <==> ReturnsAtTheEndAlone(Skeleton(lines, under), under)
    decreases |lines|
  {
    if lines != [] {
      var line, block := lines[0], under(lines[0]);
      assert ReturnBlind(under, line);
      var rest := if block.Some? then DropIndented(lines[1..]) else lines[1..];
      KeptDecideOpen(rest, under);
      SpliceKeepsHead(rest, under);
      EndAloneNext(line, Skeleton(rest, under), under);
      StandBefore([line], (if block.Some? then block.value else []) + Splice(rest, under));
      if IsFollowed(line, under) {
        assert forall i | 0 <= i < |block.value| :: StripAll(block.value)[i] == StripReturn(block.value[i]);
        StandBefore(block.value, Splice(rest, under));
      } else {
        assert [] + Splice(rest, under) == Splice(rest, under);
      }
    }
  }

  lemma {:induction false} InitShortens(lines: seq<string>)
    ensures AllButTheLastStand(lines) <==> Join(StripInit(lines)) == Join(lines)
  {
    if lines != [] {
      var n := |lines| - 1;
      var init, last := lines[..n], lines[n..];
      StrippingShortens(init);
      assert StripInit(lines) == StripAll(init) + last && lines == init + last;
      if init != [] {
        JoinAppend(init, last);
        JoinAppend(StripAll(init), last);
      }
      assert AllButTheLastStand(lines) <==> StripAll(init) == init;
    }
  }

  /** Lines of a text without a closing newline, as a splice leaves them. */
  predicate OpenLines(lines: seq<string>) {
    AllOneLine(lines) && LastIsFull(lines)
  }

  lemma SplicedAreOpen(summary: string, pages: seq<string>)
    requires summary != "" && !EndsInNewline(summary) && OneLinePages(pages)
    ensures OpenLines(Splice(Lines(summary), BlocksFor(pages)))
  {
    LinesAllOneLine(summary);
    SplicedAreOneLine(Lines(summary), pages);
    LastLineIsFull(summary);
    forall line ensures FullBlocks(BlocksFor(pages), line) {
      BlocksForAreFull(pages, line);
    }
    SplicedLastIsFull(Lines(summary), BlocksFor(pages));
  }

  lemma OpenLinesStay(lines: seq<string>, pages: seq<string>)
    requires Splice(lines, BlocksFor(pages)) == lines
    ensures Splice(StripInit(lines), BlocksFor(pages)) == StripInit(lines)
  {
    forall line ensures ReturnBlind(BlocksFor(pages), line) && BlocksAreIndented(BlocksFor(pages), line) {
      BlocksForAreBlind(pages, line);
      BlocksForAreIndented(pages, line);
    }
    StrippedStays(lines, StripInit(lines), BlocksFor(pages));
  }

  lemma OpenSplice(text: string, lines: seq<string>, pages: seq<string>)
    requires !EndsInNewline(text) && Lines(text) == lines
    ensures SpliceNav(text, pages) == Join(Splice(lines, BlocksFor(pages)))
  {
    assert Join(Splice(lines, BlocksFor(pages))) + "" == Join(Splice(lines, BlocksFor(pages)));
  }

  /** The lines of an open text, spliced twice. */
  lemma OpenTwice(summary: string, pages: seq<string>)
    requires summary != "" && !EndsInNewline(summary) && OneLinePages(pages)
    ensures var lines := Splice(Lines(summary), BlocksFor(pages));
            && SpliceNav(summary, pages) == Join(lines)
            && SpliceNav(Join(lines), pages) == Join(StripInit(lines))
  {
    var lines := Splice(Lines(summary), BlocksFor(pages));
    SplicedAreOpen(summary, pages);
    OpenSplice(summary, Lines(summary), pages);
    LinesOfOpen(lines);
    JoinEndsOpen(lines);
    SpliceIsIdempotent(Lines(summary), pages);
    OpenLinesStay(lines, pages);
    OpenSplice(Join(lines), StripInit(lines), pages);
  }

  /**
    Without a closing newline the text is stable exactly when none of the lines
    kept ends in a carriage return, the last excepted if nothing is put behind it.
   */
  lemma OpenTextIsStable(summary: string, pages: seq<string>)
    requires !EndsInNewline(summary) && OneLinePages(pages)
    ensures SpliceNav(SpliceNav(summary, pages), pages) == SpliceNav(summary, pages) <==>
            ReturnsAtTheEndAlone(KeptLines(summary, pages), BlocksFor(pages))
  {
    if summary != "" {
      var lines := Splice(Lines(summary), BlocksFor(pages));
      OpenTwice(summary, pages);
      InitShortens(lines);
      forall line ensures ReturnBlind(BlocksFor(pages), line) {
        BlocksForAreBlind(pages, line);
      }
      KeptDecideOpen(Lines(summary), BlocksFor(pages));
    }
  }

  lemma {:induction false} JoinEndsOpen(lines: seq<string>)
    requires lines != [] && AllOneLine(lines) && lines[|lines| - 1] != ""
    ensures Join(lines) != "" && !EndsInNewline(Join(lines))
    decreases |lines|
  {
    if |lines| > 1 {
      JoinEndsOpen(lines[1..]);
    } else {
      assert lines[0][|lines[0]| - 1] in lines[0];
    }
  }
}
