/** The CA bundle of cli/src/io/trust.rs. */
module Trust {
  import opened Prelude
  import opened Sequences
  import opened Text
  import Strings

  // Certificate blocks are cut out of PEM text (the encoding of section 5 of RFC
  // 7468), joined with the lab's CA, and written back without repeats.

  const BEGIN := "-----BEGIN CERTIFICATE-----"
  const END := "-----END CERTIFICATE-----"

  predicate IsBegin(line: string) { Trim(line) == BEGIN }
  predicate IsEnd(line: string) { Trim(line) == END }
  predicate IsMarker(line: string) { IsBegin(line) || IsEnd(line) }

  /** The trimmed lines that are not blank. */
  function Content(lines: seq<string>): seq<string> {
    if lines == [] then []
    else
      var t := Trim(lines[|lines| - 1]);
      Content(lines[..|lines| - 1]) + if t == [] then [] else [t]
  }

  /// The parser, line by line

  /** The block still open after these lines. */
  function Open(lines: seq<string>): Option<seq<string>> {
    if lines == [] then None
    else
      var line := lines[|lines| - 1];
      var before := Open(lines[..|lines| - 1]);
      if IsBegin(line) then Some([BEGIN])
      else if IsEnd(line) then None
      else if before.Some? && Trim(line) != [] then Some(before.value + [Trim(line)])
      else before
  }

  /** The blocks closed within these lines. */
  function Blocks(lines: seq<string>): seq<string> {
    if lines == [] then []
    else
      var init := lines[..|lines| - 1];
      var closed := Open(init);
      if IsEnd(lines[|lines| - 1]) && closed.Some? then Blocks(init) + [Join(closed.value + [END])]
      else Blocks(init)
  }

  method PemBlocks(pem: string) returns (out: seq<string>)
    ensures out == Blocks(Lines(pem))
  {
    out := [];
    var current: Option<seq<string>> := None;
    var lines := Lines(pem);
    for i := 0 to |lines|
      invariant out == Blocks(lines[..i])
      invariant current == Open(lines[..i])
    {
      assert lines[..i + 1][..i] == lines[..i];
      var trimmed := Trim(lines[i]);
      if trimmed == BEGIN {
        current := Some([trimmed]);
      } else if trimmed == END {
        if current.Some? {
          var block := current.value;
          current := None;
          block := block + [trimmed];
          out := out + [Join(block)];
        }
      } else if current.Some? && trimmed != [] {
        current := Some(current.value + [trimmed]);
      }
    }
    assert lines[..|lines|] == lines;
  }

  /// What a block is

  predicate Unmarked(lines: seq<string>, lo: nat, hi: nat) {
    forall k | lo <= k < hi && k < |lines| :: !IsMarker(lines[k])
  }

  /** Lines `i` and `j` are a BEGIN and the END that answers it: no marker stands between. */
  predicate Spans(lines: seq<string>, i: nat, j: nat) {
    i < j < |lines| && IsBegin(lines[i]) && IsEnd(lines[j]) && Unmarked(lines, i + 1, j)
  }

  function BlockText(lines: seq<string>, i: nat, j: nat): string
    requires i < j < |lines|
  {
    Join([BEGIN] + Content(lines[i + 1..j]) + [END])
  }

  lemma {:induction false} OpenSince(lines: seq<string>, i: nat)
    requires i < |lines| && IsBegin(lines[i]) && Unmarked(lines, i + 1, |lines|)
    ensures Open(lines).Some? && Open(lines).value == [BEGIN] + Content(lines[i + 1..])
    decreases |lines|
  {
    var init, last := lines[..|lines| - 1], lines[|lines| - 1];
    if i < |init| {
      OpenSince(init, i);
      var body := lines[i + 1..];
      assert body[..|body| - 1] == init[i + 1..] && body[|body| - 1] == last;
      assert !IsMarker(last);
    }
  }

  lemma {:induction false} OpenHasBegin(lines: seq<string>) returns (i: nat)
    requires Open(lines).Some?
    ensures i < |lines| && IsBegin(lines[i]) && Unmarked(lines, i + 1, |lines|)
    decreases |lines|
  {
    if IsBegin(lines[|lines| - 1]) {
      i := |lines| - 1;
    } else {
      i := OpenHasBegin(lines[..|lines| - 1]);
    }
  }

  lemma SpansBefore(lines: seq<string>, i: nat, j: nat)
    requires i < j < |lines| - 1
    ensures Spans(lines, i, j) <==> Spans(lines[..|lines| - 1], i, j)
    ensures BlockText(lines, i, j) == BlockText(lines[..|lines| - 1], i, j)
  {
    assert lines[i + 1..j] == lines[..|lines| - 1][i + 1..j];
  }

  /** An END that answers a BEGIN closes the block between them. */
  lemma ClosedBlock(lines: seq<string>, i: nat)
    requires lines != [] && Spans(lines, i, |lines| - 1)
    ensures Blocks(lines) == Blocks(lines[..|lines| - 1]) + [BlockText(lines, i, |lines| - 1)]
  {
    var init := lines[..|lines| - 1];
    OpenSince(init, i);
    assert lines[i + 1..|lines| - 1] == init[i + 1..];
  }

  lemma OpenerOfEnd(lines: seq<string>) returns (i: nat)
    requires lines != [] && IsEnd(lines[|lines| - 1]) && Open(lines[..|lines| - 1]).Some?
    ensures Spans(lines, i, |lines| - 1)
  {
    i := OpenHasBegin(lines[..|lines| - 1]);
  }

  lemma {:induction false} BlockHasSpan(lines: seq<string>, block: string) returns (i: nat, j: nat)
    requires block in Blocks(lines)
    ensures Spans(lines, i, j) && block == BlockText(lines, i, j)
    decreases |lines|
  {
    var init := lines[..|lines| - 1];
    if block in Blocks(init) {
      i, j := BlockHasSpan(init, block);
      SpansBefore(lines, i, j);
    } else {
      i := OpenerOfEnd(lines);
      j := |lines| - 1;
      ClosedBlock(lines, i);
    }
  }

  lemma {:induction false} SpanGivesBlock(lines: seq<string>, i: nat, j: nat)
    requires Spans(lines, i, j)
    ensures BlockText(lines, i, j) in Blocks(lines)
    decreases |lines|
  {
    if j == |lines| - 1 {
      ClosedBlock(lines, i);
    } else {
      SpansBefore(lines, i, j);
      SpanGivesBlock(lines[..|lines| - 1], i, j);
    }
  }

  /** A block is exactly what stands between an END and the nearest marker before it, when that is a BEGIN. */
  lemma BlocksAreSpans(lines: seq<string>, block: string)
    ensures block in Blocks(lines) <==> exists i, j :: Spans(lines, i, j) && block == BlockText(lines, i, j)
  {
    if block in Blocks(lines) {
      var i, j := BlockHasSpan(lines, block);
    }
    forall i, j | Spans(lines, i, j) ensures BlockText(lines, i, j) in Blocks(lines) {
      SpanGivesBlock(lines, i, j);
    }
  }

  /// Parsing joined files

  /** The first marker of these lines: whether there is one, and whether it is an END. */
  predicate StartsWithEnd(lines: seq<string>) {
    lines != [] && (IsEnd(lines[0]) || (!IsBegin(lines[0]) && StartsWithEnd(lines[1..])))
  }

  predicate HasMarker(lines: seq<string>) {
    exists k | 0 <= k < |lines| :: IsMarker(lines[k])
  }

  lemma HasMarkerAtEnd(b: seq<string>)
    requires b != []
    ensures HasMarker(b) <==> HasMarker(b[..|b| - 1]) || IsMarker(b[|b| - 1])
  {}

  /** What was open before is forgotten at the first marker. */
  lemma {:induction false} OpenAfter(a: seq<string>, b: seq<string>)
    ensures HasMarker(b) ==> Open(a + b) == Open(b)
    ensures !HasMarker(b) ==> Open(b).None? && Blocks(b) == []
    ensures !HasMarker(b) ==> Open(a + b).Some? == Open(a).Some? && Blocks(a + b) == Blocks(a)
    decreases |b|
  {
    if b == [] {
      assert a + b == a;
    } else {
      var init := b[..|b| - 1];
      assert (a + b)[..|a + b| - 1] == a + init;
      OpenAfter(a, init);
      HasMarkerAtEnd(b);
    }
  }

  lemma {:induction false} StartsWithEndOfInit(b: seq<string>)
    requires b != []
    ensures HasMarker(b[..|b| - 1]) ==> (StartsWithEnd(b) <==> StartsWithEnd(b[..|b| - 1]))
    ensures !HasMarker(b[..|b| - 1]) ==> (StartsWithEnd(b) <==> IsEnd(b[|b| - 1]))
    decreases |b|
  {
    var init := b[..|b| - 1];
    if |b| > 1 && !IsMarker(b[0]) {
      StartsWithEndOfInit(b[1..]);
      assert b[1..][..|b| - 2] == init[1..];
      assert HasMarker(init) <==> HasMarker(init[1..]) by {
        if HasMarker(init) {
          var k :| 0 <= k < |init| && IsMarker(init[k]);
          assert IsMarker(init[1..][k - 1]);
        }
        if HasMarker(init[1..]) {
          var k :| 0 <= k < |init[1..]| && IsMarker(init[1..][k]);
          assert IsMarker(init[k + 1]);
        }
      }
    } else if |b| > 1 {
      assert init[0] == b[0];
    }
  }

  /** Blocks add up unless a block left open is closed by the other side. */
  lemma {:induction false} BlocksOfBoth(a: seq<string>, b: seq<string>)
    ensures Open(a).None? || !StartsWithEnd(b) ==> Blocks(a + b) == Blocks(a) + Blocks(b)
    ensures Open(a).Some? && StartsWithEnd(b) ==> |Blocks(a + b)| == |Blocks(a)| + |Blocks(b)| + 1
    decreases |b|
  {
    if b == [] {
      assert a + b == a;
    } else {
      var init := b[..|b| - 1];
      assert (a + b)[..|a + b| - 1] == a + init;
      BlocksOfBoth(a, init);
      OpenAfter(a, init);
      StartsWithEndOfInit(b);
    }
  }

  /** Joining lines loses no block and makes none up exactly when no block runs across the seam. */
  lemma BlocksDistribute(a: seq<string>, b: seq<string>)
    ensures Blocks(a + b) == Blocks(a) + Blocks(b) <==> !(Open(a).Some? && StartsWithEnd(b))
  {
    BlocksOfBoth(a, b);
  }

  function Parse(pem: string): seq<string> {
    Blocks(Lines(pem))
  }

  /** Lines a parser cannot tell apart: the last loses a carriage return, or a blank one is added. */
  predicate ClosedBy(open: seq<string>, closed: seq<string>) {
    || closed == open + [""]
    || (open != [] && closed == open[..|open| - 1] + [StripReturn(open[|open| - 1])])
  }

  lemma {:induction false} LinesWhenClosed(x: string)
    ensures ClosedBy(Lines(x), Lines(x + NEWLINE))
    decreases |x|
  {
    if x == "" {
      OneLineCloses("");
    } else if LineEnd(x) == |x| {
      OneLineCloses(x);
      assert Lines(x) == [x];
    } else {
      var head, tail := SplitAtLineEnd(x);
      FirstOfOpen(x, head, tail);
      FirstLine(head, tail);
      LinesWhenClosed(tail);
      ClosedBehind(StripReturn(head), Lines(tail), Lines(tail + NEWLINE));
    }
  }

  lemma ClosedBehind(line: string, open: seq<string>, closed: seq<string>)
    requires ClosedBy(open, closed)
    ensures ClosedBy([line] + open, [line] + closed)
  {
    if closed == open + [""] {
      assert [line] + closed == ([line] + open) + [""];
    } else {
      assert ([line] + open)[..|open|] == [line] + open[..|open| - 1];
    }
  }

  /** The line behind the others decides with its trimmed text alone. */
  lemma SameLastLine(init: seq<string>, a: string, b: string)
    requires Trim(a) == Trim(b)
    ensures Blocks(init + [a]) == Blocks(init + [b]) && Open(init + [a]) == Open(init + [b])
  {
    assert (init + [a])[..|init|] == init == (init + [b])[..|init|];
  }

  lemma BlankLast(lines: seq<string>)
    ensures Blocks(lines + [""]) == Blocks(lines) && Open(lines + [""]) == Open(lines)
  {
    assert (lines + [""])[..|lines|] == lines;
  }

  /** Closing a file with a newline changes neither its blocks nor what is left open. */
  lemma ClosingChangesNothing(x: string)
    ensures Parse(x + NEWLINE) == Parse(x) && Open(Lines(x + NEWLINE)) == Open(Lines(x))
  {
    LinesWhenClosed(x);
    var open, closed := Lines(x), Lines(x + NEWLINE);
    if closed == open + [""] {
      BlankLast(open);
    } else {
      var init, last := open[..|open| - 1], open[|open| - 1];
      TrimStripped(last);
      SameLastLine(init, last, StripReturn(last));
      assert open == init + [last];
    }
  }

  /** The blocks of two files joined by a newline are those of both, exactly when no block runs across the seam. */
  lemma FilesDistribute(x: string, y: string)
    ensures Parse(x + NEWLINE + y) == Parse(x) + Parse(y) <==> !(Open(Lines(x)).Some? && StartsWithEnd(Lines(y)))
  {
    LinesMeet(x, y);
    ClosingChangesNothing(x);
    BlocksDistribute(Lines(x + NEWLINE), Lines(y));
  }

  /// Merging

  function Merged(roots: string, labCa: string): seq<string> {
    Dedup(Parse(roots) + Parse(labCa))
  }

  method Merge(roots: string, labCa: string) returns (out: seq<string>)
    ensures out == Merged(roots, labCa)
  {
    var rootBlocks := PemBlocks(roots);
    var caBlocks := PemBlocks(labCa);
    out := KeepFirst(rootBlocks + caBlocks);
  }

  /** The merged blocks are the blocks of either side, once each, in the order they first occur. */
  lemma MergedIsUnion(roots: string, labCa: string, block: string)
    ensures block in Merged(roots, labCa) <==> block in Parse(roots) || block in Parse(labCa)
    ensures Distinct(Merged(roots, labCa))
    ensures var m := Merged(roots, labCa);
            forall i, j | 0 <= i < j < |m| :: FirstBefore(Parse(roots) + Parse(labCa), m[i], m[j])
  {
    DedupElements(Parse(roots) + Parse(labCa), block);
    DedupIsFirstOccurrences(Parse(roots) + Parse(labCa));
  }

  /// Reading back what was written

  /** The lines of one block as the parser leaves them. */
  predicate IsBlock(lines: seq<string>) {
    && |lines| >= 2 && lines[0] == BEGIN && lines[|lines| - 1] == END && Clean(lines)
    && forall k | 0 < k < |lines| - 1 :: lines[k] != [] && Trim(lines[k]) == lines[k] && !IsMarker(lines[k])
  }

  lemma {:induction false} ContentIs(lines: seq<string>, line: string)
    requires line in Content(lines)
    ensures line != [] && exists k | 0 <= k < |lines| :: line == Trim(lines[k])
    decreases |lines|
  {
    var init := lines[..|lines| - 1];
    if line in Content(init) {
      ContentIs(init, line);
      var k :| 0 <= k < |init| && line == Trim(init[k]);
      assert line == Trim(lines[k]);
    }
  }

  lemma {:induction false} ContentOfTrimmed(lines: seq<string>)
    requires forall k | 0 <= k < |lines| :: lines[k] != [] && Trim(lines[k]) == lines[k]
    ensures Content(lines) == lines
    decreases |lines|
  {
    if lines != [] {
      var init, last := lines[..|lines| - 1], lines[|lines| - 1];
      ContentOfTrimmed(init);
      assert lines == init + [last];
    }
  }

  lemma BodyLinesAreTrimmed(pem: string, i: nat, j: nat, line: string)
    requires Spans(Lines(pem), i, j) && line in Content(Lines(pem)[i + 1..j])
    ensures line != [] && Trim(line) == line && !IsMarker(line) && OneLine(line) && StripReturn(line) == line
  {
    var between := Lines(pem)[i + 1..j];
    ContentIs(between, line);
    var m :| 0 <= m < |between| && line == Trim(between[m]);
    assert between[m] == Lines(pem)[i + 1 + m];
    TrimOfTrim(between[m]);
    TrimmedLineIsClean(pem, between[m]);
    assert [line][0] == line;
  }

  lemma FramedIsBlock(body: seq<string>)
    requires forall k | 0 <= k < |body| ::
               body[k] != [] && Trim(body[k]) == body[k] && !IsMarker(body[k]) && OneLine(body[k]) && StripReturn(body[k]) == body[k]
    ensures IsBlock([BEGIN] + body + [END])
  {
    var lines := [BEGIN] + body + [END];
    assert [BEGIN][0] == BEGIN && [END][0] == END;
    assert forall k | 0 < k < |lines| - 1 :: lines[k] == body[k - 1];
  }

  /** Every parsed block is the join of lines of that shape. */
  lemma ParsedIsBlock(pem: string, block: string) returns (lines: seq<string>)
    requires block in Parse(pem)
    ensures IsBlock(lines) && Join(lines) == block
  {
    var all := Lines(pem);
    var i, j := BlockHasSpan(all, block);
    var body := Content(all[i + 1..j]);
    lines := [BEGIN] + body + [END];
    forall k | 0 <= k < |body|
      ensures body[k] != [] && Trim(body[k]) == body[k] && !IsMarker(body[k]) && OneLine(body[k]) && StripReturn(body[k]) == body[k]
    {
      BodyLinesAreTrimmed(pem, i, j, body[k]);
    }
    FramedIsBlock(body);
  }

  /** Lines of a block read back as that block alone. */
  lemma BlockReadsBack(lines: seq<string>)
    requires IsBlock(lines)
    ensures Blocks(lines) == [Join(lines)] && Open(lines).None? && !StartsWithEnd(lines)
  {
    var last := |lines| - 1;
    var init := lines[..last];
    assert lines == init + [END];
    OpenBlock(lines, init);
    NoEndNoBlocks(init);
    MarkersAreThemselves();
  }

  lemma MarkersAreThemselves()
    ensures IsBegin(BEGIN) && !IsEnd(BEGIN) && IsEnd(END) && !IsBegin(END)
  {
    TightIsTrimmed(BEGIN);
    TightIsTrimmed(END);
    assert BEGIN[5] == 'B' && END[5] == 'E';
  }

  /** Before its END, a block is open with all its lines. */
  lemma OpenBlock(lines: seq<string>, init: seq<string>)
    requires IsBlock(lines) && init == lines[..|lines| - 1]
    ensures Open(init) == Some(init) && forall k | 0 <= k < |init| :: !IsEnd(init[k])
  {
    MarkersAreThemselves();
    InsideBlock(lines, init);
    OpenSince(init, 0);
    ContentOfTrimmed(init[1..]);
    FirstAndRest(init);
  }

  lemma FirstAndRest(lines: seq<string>)
    requires lines != []
    ensures lines == [lines[0]] + lines[1..]
  {}

  lemma InsideBlock(lines: seq<string>, init: seq<string>)
    requires IsBlock(lines) && init == lines[..|lines| - 1]
    ensures init[0] == BEGIN && Unmarked(init, 1, |init|)
    ensures forall k | 0 <= k < |init| - 1 :: init[1..][k] != [] && Trim(init[1..][k]) == init[1..][k]
  {
    forall k | 0 <= k < |init| - 1 ensures init[1..][k] != [] && Trim(init[1..][k]) == init[1..][k] {
      assert init[1..][k] == lines[k + 1];
    }
    forall k | 1 <= k < |init| ensures !IsMarker(init[k]) {
      assert init[k] == lines[k];
    }
  }

  lemma {:induction false} NoEndNoBlocks(lines: seq<string>)
    requires forall k | 0 <= k < |lines| :: !IsEnd(lines[k])
    ensures Blocks(lines) == []
    decreases |lines|
  {
    if lines != [] {
      NoEndNoBlocks(lines[..|lines| - 1]);
    }
  }

  /** One block before text that reads back as some blocks. */
  lemma BlockThenRest(lines: seq<string>, rest: string)
    requires IsBlock(lines)
    ensures Lines(Join(lines)) == lines == Lines(Join(lines) + NEWLINE)
    ensures Lines(Join(lines) + NEWLINE + rest) == lines + Lines(rest)
    ensures Parse(Join(lines) + NEWLINE + rest) == [Join(lines)] + Parse(rest)
    ensures Open(Lines(rest)).None? ==> Open(lines + Lines(rest)).None?
  {
    LinesOfJoin(lines);
    LinesOfOpenJoin(lines);
    LinesMeet(Join(lines), rest);
    BlockReadsBack(lines);
    BlocksDistribute(lines, Lines(rest));
    OpenAfter(lines, Lines(rest));
  }

  /** Newline-joined blocks read back as themselves, whatever text they were parsed from. */
  lemma {:induction false} JoinedBlocksReadBack(blocks: seq<string>, sources: seq<seq<string>>)
    requires |sources| == |blocks|
    requires forall k | 0 <= k < |blocks| :: IsBlock(sources[k]) && Join(sources[k]) == blocks[k]
    ensures Parse(Join(blocks)) == blocks
    ensures blocks != [] ==> Parse(Join(blocks) + NEWLINE) == blocks
    decreases |blocks|
  {
    if |blocks| == 1 {
      BlockThenRest(sources[0], []);
      BlockReadsBack(sources[0]);
    } else if |blocks| > 1 {
      var rest := blocks[1..];
      JoinedBlocksReadBack(rest, sources[1..]);
      BlockThenRest(sources[0], Join(rest));
      BlockThenRest(sources[0], Join(rest) + NEWLINE);
      JoinNext(blocks);
      Strings.Regroup(blocks[0] + NEWLINE, Join(rest), NEWLINE);
      assert blocks == [blocks[0]] + rest;
    }
  }

  /** The lines behind each merged block. */
  lemma {:induction false} MergedSources(blocks: seq<string>, roots: string, labCa: string) returns (sources: seq<seq<string>>)
    requires forall k | 0 <= k < |blocks| :: blocks[k] in Parse(roots) || blocks[k] in Parse(labCa)
    ensures |sources| == |blocks|
    ensures forall k | 0 <= k < |blocks| :: IsBlock(sources[k]) && Join(sources[k]) == blocks[k]
  {
    sources := [];
    for i := 0 to |blocks|
      invariant |sources| == i
      invariant forall k | 0 <= k < i :: IsBlock(sources[k]) && Join(sources[k]) == blocks[k]
    {
      var lines;
      if blocks[i] in Parse(roots) {
        lines := ParsedIsBlock(roots, blocks[i]);
      } else {
        lines := ParsedIsBlock(labCa, blocks[i]);
      }
      sources := sources + [lines];
    }
  }

  /** A merged bundle is a fixpoint: it reads back as itself, and merging the CA in again changes nothing. */
  lemma MergeIsFixpoint(roots: string, labCa: string)
    ensures var m := Merged(roots, labCa);
            && Parse(Join(m)) == m && Merged(Join(m), labCa) == m
            && (m != [] ==> Parse(Join(m) + NEWLINE) == m && Merged(Join(m) + NEWLINE, labCa) == m)
  {
    var m := Merged(roots, labCa);
    forall k | 0 <= k < |m| ensures m[k] in Parse(roots) || m[k] in Parse(labCa) {
      assert m[k] in m;
      MergedIsUnion(roots, labCa, m[k]);
    }
    var sources := MergedSources(m, roots, labCa);
    JoinedBlocksReadBack(m, sources);
    forall x | x in Parse(labCa) ensures x in m {
      MergedIsUnion(roots, labCa, x);
    }
    DedupAbsorbs(m, Parse(labCa));
    MergedIsUnion(roots, labCa, []);
    DedupOfDistinct(m);
  }

  /// The bundle file

  /** The text the root files make: each followed by a newline. */
  function Concatenated(files: seq<string>): string {
    if files == [] then [] else Concatenated(files[..|files| - 1]) + files[|files| - 1] + NEWLINE
  }

  function AllBlocks(files: seq<string>): seq<string> {
    if files == [] then [] else AllBlocks(files[..|files| - 1]) + Parse(files[|files| - 1])
  }

  lemma StartsWithEndWhenClosed(x: string)
    ensures StartsWithEnd(Lines(x + NEWLINE)) == StartsWithEnd(Lines(x))
  {
    LinesWhenClosed(x);
    var open, closed := Lines(x), Lines(x + NEWLINE);
    if closed == open + [""] {
      assert closed[..|closed| - 1] == open;
      StartsWithEndOfInit(closed);
      if !HasMarker(open) {
        NoMarkerNoEnd(open);
      }
    } else {
      var n := |open| - 1;
      assert closed[..|closed| - 1] == open[..n] && closed[|closed| - 1] == StripReturn(open[n]);
      StartsWithEndOfInit(closed);
      StartsWithEndOfInit(open);
      TrimStripped(open[n]);
    }
  }

  lemma {:induction false} NoMarkerNoEnd(lines: seq<string>)
    requires !HasMarker(lines)
    ensures !StartsWithEnd(lines)
  {
    if lines != [] {
      assert !IsMarker(lines[0]);
      forall k | 0 <= k < |lines[1..]| ensures !IsMarker(lines[1..][k]) {
        assert lines[1..][k] == lines[k + 1];
      }
      NoMarkerNoEnd(lines[1..]);
    }
  }

  /** Root files none of which starts with an END give their blocks file by file. */
  lemma {:induction false} RootFilesDistribute(files: seq<string>)
    requires forall i | 0 <= i < |files| :: !StartsWithEnd(Lines(files[i]))
    ensures Parse(Concatenated(files)) == AllBlocks(files)
    decreases |files|
  {
    if |files| == 1 {
      assert Concatenated(files) == "" + files[0] + NEWLINE == files[0] + NEWLINE;
      ClosingChangesNothing(files[0]);
      assert files[..0] == [];
    } else if |files| > 1 {
      var n := |files| - 1;
      RootFilesDistribute(files[..n]);
      var before := Concatenated(files[..n - 1]) + files[n - 1];
      assert files[..n][..n - 1] == files[..n - 1];
      OneMoreFile(before, files[n]);
    }
  }

  /** Behind files closed by a newline, one that does not start with an END adds its own blocks. */
  lemma OneMoreFile(before: string, file: string)
    requires !StartsWithEnd(Lines(file))
    ensures Parse(before + NEWLINE + file + NEWLINE) == Parse(before + NEWLINE) + Parse(file)
  {
    Strings.Regroup(before + NEWLINE, file, NEWLINE);
    ClosingChangesNothing(before);
    ClosingChangesNothing(file);
    StartsWithEndWhenClosed(file);
    FilesDistribute(before, file + NEWLINE);
  }

  /** What is written, when there is something beyond the lab's own CA to write. */
  function Bundle(files: seq<string>, labCa: string): Option<string> {
    var blocks := Merged(Concatenated(files), labCa);
    if |blocks| < 2 || |blocks| <= |Parse(labCa)| then None else Some(Join(blocks) + NEWLINE)
  }

  method EnsureBundle(files: seq<string>, labCa: string) returns (contents: Option<string>)
    ensures contents == Bundle(files, labCa)
    ensures contents.Some? <==> |Certificates(files, labCa)| >= 2 && |Certificates(files, labCa)| > |Parse(labCa)|
  {
    BundledExactly(files, labCa);
    if files == [] {
      return None;
    }
    var rootsPem := "";
    for i := 0 to |files|
      invariant rootsPem == Concatenated(files[..i])
    {
      assert files[..i + 1][..i] == files[..i];
      rootsPem := rootsPem + files[i] + NEWLINE;
    }
    assert files[..|files|] == files;
    var blocks := Merge(rootsPem, labCa);
    var caBlocks := PemBlocks(labCa);
    if |blocks| < 2 || |blocks| <= |caBlocks| {
      return None;
    }
    contents := Some(Join(blocks) + NEWLINE);
  }

  /** The certificates of the root files and of the lab's CA. */
  function Certificates(files: seq<string>, labCa: string): set<string> {
    set block | block in Parse(Concatenated(files)) + Parse(labCa)
  }

  lemma MergedCount(files: seq<string>, labCa: string)
    ensures |Merged(Concatenated(files), labCa)| == |Certificates(files, labCa)|
  {
    var m := Merged(Concatenated(files), labCa);
    MergedIsUnion(Concatenated(files), labCa, []);
    DistinctCount(m);
    forall block ensures block in m <==> block in Certificates(files, labCa) {
      MergedIsUnion(Concatenated(files), labCa, block);
    }
    assert (set block | block in m) == Certificates(files, labCa);
  }

  /** Without root files there is nothing beside the lab's own authority. */
  lemma NoRootsNoBundle(labCa: string)
    ensures Bundle([], labCa) == None
  {
    var m := Merged("", labCa);
    assert Lines("") == [] && Parse("") == [];
    forall block | block in m ensures block in Parse(labCa) {
      MergedIsUnion("", labCa, block);
    }
    MergedIsUnion("", labCa, "");
    DistinctWithin(m, Parse(labCa));
  }

  /** A bundle is written exactly when there are two certificates at least, and more than the authority's text has. */
  lemma BundledExactly(files: seq<string>, labCa: string)
    ensures Bundle(files, labCa).Some? <==>
            |Certificates(files, labCa)| >= 2 && |Certificates(files, labCa)| > |Parse(labCa)|
    ensures files == [] ==> Bundle(files, labCa).None?
  {
    MergedCount(files, labCa);
    NoRootsNoBundle(labCa);
  }

  /** It holds each of them once, and nothing else, and closes the last with a newline. */
  lemma BundleHoldsThemAll(files: seq<string>, labCa: string, block: string)
    requires Bundle(files, labCa).Some?
    ensures Distinct(Parse(Bundle(files, labCa).value))
    ensures Bundle(files, labCa).value == Join(Parse(Bundle(files, labCa).value)) + NEWLINE
    ensures block in Parse(Bundle(files, labCa).value) <==> block in Certificates(files, labCa)
  {
    MergeIsFixpoint(Concatenated(files), labCa);
    MergedIsUnion(Concatenated(files), labCa, block);
  }

  /** A bundle holds every block of the lab's CA and at least one that the CA does not have. */
  lemma BundleAddsToTheCa(files: seq<string>, labCa: string) returns (root: string)
    requires Bundle(files, labCa).Some?
    ensures root in Parse(Concatenated(files)) && root !in Parse(labCa)
    ensures forall block | block in Parse(labCa) || block == root :: block in Parse(Bundle(files, labCa).value)
  {
    var roots := Concatenated(files);
    var m := Merged(roots, labCa);
    MergeIsFixpoint(roots, labCa);
    MergedIsUnion(roots, labCa, []);
    if forall k | 0 <= k < |m| :: m[k] in Parse(labCa) {
      DistinctWithin(m, Parse(labCa));
      assert false;
    }
    var k :| 0 <= k < |m| && m[k] !in Parse(labCa);
    root := m[k];
    assert root in m;
    MergedIsUnion(roots, labCa, root);
    forall block | block in Parse(labCa) || block == root ensures block in Parse(Bundle(files, labCa).value) {
      MergedIsUnion(roots, labCa, block);
    }
  }

  lemma BlankLineAddsNothing(text: string)
    ensures Parse(text + NEWLINE + NEWLINE) == Parse(text + NEWLINE)
  {
    LinesMeet(text, NEWLINE);
    FirstLine([], []);
    assert [] + NEWLINE + [] == NEWLINE;
    assert Lines(NEWLINE) == [[]];
    BlocksDistribute(Lines(text + NEWLINE), [[]]);
    assert Blocks([[]]) == [] && !StartsWithEnd([[]]);
  }

  /** Using the written bundle as a root source beside the same CA writes the same bundle. */
  lemma BundleIsStable(files: seq<string>, labCa: string)
    requires Bundle(files, labCa).Some?
    ensures Bundle([Bundle(files, labCa).value], labCa) == Bundle(files, labCa)
  {
    var m := Merged(Concatenated(files), labCa);
    MergeIsFixpoint(Concatenated(files), labCa);
    var text := Bundle(files, labCa).value;
    assert Concatenated([text]) == text + NEWLINE;
    BlankLineAddsNothing(Join(m));
  }
}
