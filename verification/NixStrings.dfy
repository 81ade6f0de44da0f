/**
  Strings and attribute names as cli/src/codegen/nix_emitter.rs writes them, and
  as the Nix lexer reads them back.

  Five replacements are chained in writing a string; `OnePass` is what they come
  to. A name is written without quotes when its characters allow it.
 */
module NixStrings {
  import opened Prelude
  import opened Strings

  /// Writing

  function Escape(s: string): string {
    Replace(Replace(Replace(Replace(Replace(s,
      "\\", "\\\\"), "\"", "\\\""), "${", "\\${"), "\n", "\\n"), "\t", "\\t")
  }

  /** The same escaping in a single pass from left to right. */
  function OnePass(s: string): string {
    if s == "" then ""
    else if s[0] == '\\' || s[0] == '"' then ['\\', s[0]] + OnePass(s[1..])
    else if s[0] == '\n' then "\\n" + OnePass(s[1..])
    else if s[0] == '\t' then "\\t" + OnePass(s[1..])
    else if Interpolates(s) then "\\${" + OnePass(s[2..])
    else [s[0]] + OnePass(s[1..])
  }

  predicate Interpolates(s: string) {
    |s| >= 2 && s[0] == '$' && s[1] == '{'
  }

  /** A double-quoted literal, and the text that follows it. */
  function QuotedOnto(s: string, rest: string): string {
    "\"" + (Escape(s) + ("\"" + rest))
  }

  /// Reading

  /**
    What follows an opening quote, up to the closing one: the value and the text
    after it. `$$` is taken as a pair, `${` would start an interpolation, and a
    bare carriage return, alone or before a newline, reads as a newline.
   */
  function ReadString(s: string): (r: Option<(string, string)>)
    ensures r.Some? ==> |r.value.1| < |s|
    decreases |s|
  {
    if s == "" then None
    else if s[0] == '"' then Some(("", s[1..]))
    else if s[0] == '\\' then
      if |s| == 1 then None else Before([Unescaped(s[1])], ReadString(s[2..]))
    else if Interpolates(s) then None
    else if s[0] == '$' && |s| >= 2 && s[1] == '$' then Before("$$", ReadString(s[2..]))
    else if s[0] == '\r' then
      Before("\n", ReadString(if |s| >= 2 && s[1] == '\n' then s[2..] else s[1..]))
    else Before([s[0]], ReadString(s[1..]))
  }

  function Unescaped(c: char): char {
    match c
    case 'n' => '\n'
    case 'r' => '\r'
    case 't' => '\t'
    case _ => c
  }

  function ReadQuoted(s: string): (r: Option<(string, string)>)
    ensures r.Some? ==> |r.value.1| < |s|
  {
    if s == "" || s[0] != '"' then None else ReadString(s[1..])
  }

  /** The text with every carriage return turned into a newline. */
  function NoReturns(s: string): (t: string)
    ensures |t| == |s|
    ensures t == s <==> '\r' !in s
  {
    if s == "" then ""
    else
      var rest := NoReturns(s[1..]);
      assert s == [s[0]] + s[1..];
      assert ([if s[0] == '\r' then '\n' else s[0]] + rest)[1..] == rest;
      [if s[0] == '\r' then '\n' else s[0]] + rest
  }

  /// The five replacements are one pass

  function Slashes(s: string): string { Replace(s, "\\", "\\\\") }

  function Quotes(s: string): string { Replace(s, "\"", "\\\"") }

  function Dollars(s: string): string { Replace(s, "${", "\\${") }

  function Newlines(s: string): string { Replace(s, "\n", "\\n") }

  function Tabs(s: string): string { Replace(s, "\t", "\\t") }

  lemma TailCopies(head: string, s: string)
    requires '\n' !in head && '\t' !in head
    ensures Tabs(Newlines(head + s)) == head + Tabs(Newlines(s))
  {
    ReplaceCopies(head, s, "\n", "\\n");
    ReplaceCopies(head, Newlines(s), "\t", "\\t");
  }

  lemma FrontCopies(head: string, s: string)
    requires '\\' !in head && '"' !in head
    ensures Quotes(Slashes(head + s)) == head + Quotes(Slashes(s))
  {
    ReplaceCopies(head, s, "\\", "\\\\");
    ReplaceCopies(head, Slashes(s), "\"", "\\\"");
  }

  lemma EscapeSlash(r: string)
    ensures Escape("\\" + r) == "\\\\" + Escape(r)
  {
    ReplaceHits(r, "\\", "\\\\");
    ReplaceCopies("\\\\", Slashes(r), "\"", "\\\"");
    ReplaceCopies("\\\\", Quotes(Slashes(r)), "${", "\\${");
    TailCopies("\\\\", Dollars(Quotes(Slashes(r))));
  }

  lemma EscapeQuote(r: string)
    ensures Escape("\"" + r) == "\\\"" + Escape(r)
  {
    ReplaceCopies("\"", r, "\\", "\\\\");
    ReplaceHits(Slashes(r), "\"", "\\\"");
    ReplaceCopies("\\\"", Quotes(Slashes(r)), "${", "\\${");
    TailCopies("\\\"", Dollars(Quotes(Slashes(r))));
  }

  lemma EscapeNewline(r: string)
    ensures Escape("\n" + r) == "\\n" + Escape(r)
  {
    FrontCopies("\n", r);
    ReplaceCopies("\n", Quotes(Slashes(r)), "${", "\\${");
    var d := Dollars(Quotes(Slashes(r)));
    ReplaceHits(d, "\n", "\\n");
    ReplaceCopies("\\n", Newlines(d), "\t", "\\t");
  }

  lemma EscapeTab(r: string)
    ensures Escape("\t" + r) == "\\t" + Escape(r)
  {
    FrontCopies("\t", r);
    ReplaceCopies("\t", Quotes(Slashes(r)), "${", "\\${");
    var d := Dollars(Quotes(Slashes(r)));
    ReplaceCopies("\t", d, "\n", "\\n");
    ReplaceHits(Newlines(d), "\t", "\\t");
  }

  lemma EscapeInterpolation(r: string)
    ensures Escape("${" + r) == "\\${" + Escape(r)
  {
    FrontCopies("${", r);
    var q := Quotes(Slashes(r));
    ReplaceHits(q, "${", "\\${");
    TailCopies("\\${", Dollars(q));
  }

  lemma EscapeDollar(r: string)
    requires r == "" || r[0] != '{'
    ensures Escape("$" + r) == "$" + Escape(r)
  {
    FrontCopies("$", r);
    ReplaceHead(r, "\\", "\\\\");
    ReplaceHead(Slashes(r), "\"", "\\\"");
    var q := Quotes(Slashes(r));
    assert q == "" || q[0] != '{';
    assert ("$" + q)[1..] == q;
    assert Dollars("$" + q) == "$" + Dollars(q);
    TailCopies("$", Dollars(q));
  }

  predicate Plain(c: char) {
    c != '\\' && c != '"' && c != '\n' && c != '\t' && c != '$'
  }

  lemma EscapePlain(c: char, r: string)
    requires Plain(c)
    ensures Escape([c] + r) == [c] + Escape(r)
  {
    FrontCopies([c], r);
    ReplaceCopies([c], Quotes(Slashes(r)), "${", "\\${");
    TailCopies([c], Dollars(Quotes(Slashes(r))));
  }

  /** The five chained replacements are one pass over the text. */
  lemma {:induction false} EscapeIsOnePass(s: string)
    ensures Escape(s) == OnePass(s)
    decreases |s|
  {
    if s != "" {
      var c, r := s[0], s[1..];
      assert s == [c] + r;
      if Interpolates(s) {
        assert s == "${" + s[2..];
        EscapeInterpolation(s[2..]);
        EscapeIsOnePass(s[2..]);
      } else {
        EscapeIsOnePass(r);
        if c == '\\' { EscapeSlash(r); }
        else if c == '"' { EscapeQuote(r); }
        else if c == '\n' { EscapeNewline(r); }
        else if c == '\t' { EscapeTab(r); }
        else if c == '$' { EscapeDollar(r); }
        else { EscapePlain(c, r); }
      }
    }
  }

  /// Reading inverts writing

  lemma ReadEscaped(c: char, u: string)
    ensures ReadString(['\\', c] + u) == Before([Unescaped(c)], ReadString(u))
  {
    var t := ['\\', c] + u;
    assert t[0] == '\\' && t[1] == c && t[2..] == u;
  }

  lemma ReadCopied(c: char, u: string)
    requires c != '\\' && c != '"'
    requires c == '$' ==> u != "" && u[0] != '{' && u[0] != '$'
    requires c == '\r' ==> u != "" && u[0] != '\n'
    ensures ReadString([c] + u) == Before([if c == '\r' then '\n' else c], ReadString(u))
  {
    var t := [c] + u;
    assert t[0] == c && t[1..] == u;
  }

  lemma ReadDollars(u: string)
    ensures ReadString("$$" + u) == Before("$$", ReadString(u))
  {
    var t := "$$" + u;
    assert t[0] == '$' && t[1] == '$' && t[2..] == u;
  }

  /** What the writer leaves of one character when no `{` can follow a `$`. */
  function Image(c: char): string {
    if c == '\\' || c == '"' then ['\\', c]
    else if c == '\n' then "\\n"
    else if c == '\t' then "\\t"
    else [c]
  }

  lemma OnePassStep(s: string)
    requires s != "" && !Interpolates(s)
    ensures OnePass(s) == Image(s[0]) + OnePass(s[1..])
    ensures NoReturns(s) == [if s[0] == '\r' then '\n' else s[0]] + NoReturns(s[1..])
  {}

  lemma ReadImage(c: char, u: string)
    requires u != "" && u[0] != '\n' && (c == '$' ==> u[0] != '{' && u[0] != '$')
    ensures ReadString(Image(c) + u) == Before([if c == '\r' then '\n' else c], ReadString(u))
  {
    if c == '\\' || c == '"' {
      ReadEscaped(c, u);
    } else if c == '\n' {
      ReadEscaped('n', u);
    } else if c == '\t' {
      ReadEscaped('t', u);
    } else {
      ReadCopied(c, u);
    }
  }

  lemma RegroupPair(a: char, b: char, c: char, w: string, q: string)
    ensures ([a, b, c] + w) + q == [a, b] + ([c] + (w + q))
    ensures ([a] + w) + q == [a] + (w + q)
    ensures ([a] + ([b] + w)) + q == [a, b] + (w + q)
  {}

  lemma ReadEnd(rest: string)
    ensures ReadString("" + ("\"" + rest)) == Some(("", rest))
  {
    var t := "\"" + rest;
    assert "" + t == t;
    assert t[0] == '"' && t[1..] == rest;
  }

  lemma InterpolationReads(s: string, w: string, rest: string)
    requires Interpolates(s) && w == OnePass(s[2..])
    requires ReadString(w + ("\"" + rest)) == Some((NoReturns(s[2..]), rest))
    ensures ReadString(OnePass(s) + ("\"" + rest)) == Some((NoReturns(s), rest))
  {
    var q := "\"" + rest;
    RegroupPair('\\', '$', '{', w, q);
    ReadCopied('{', w + q);
    ReadEscaped('$', ['{'] + (w + q));
    assert s[1..][1..] == s[2..];
    OnePassStep(s[1..]);
    assert NoReturns(s) == ['$'] + (['{'] + NoReturns(s[2..]));
  }

  lemma DollarsRead(s: string, w: string, rest: string)
    requires |s| >= 2 && s[0] == '$' == s[1] && !Interpolates(s[1..]) && w == OnePass(s[2..])
    requires ReadString(w + ("\"" + rest)) == Some((NoReturns(s[2..]), rest))
    ensures ReadString(OnePass(s) + ("\"" + rest)) == Some((NoReturns(s), rest))
  {
    var q := "\"" + rest;
    assert s[1..][1..] == s[2..];
    OnePassStep(s);
    OnePassStep(s[1..]);
    RegroupPair('$', '$', '$', w, q);
    ReadDollars(w + q);
    TwoDollarsKept(s);
  }

  lemma TwoDollarsKept(s: string)
    requires |s| >= 2 && s[0] == '$' == s[1]
    ensures NoReturns(s) == "$$" + NoReturns(s[2..])
  {
    assert s[1..][1..] == s[2..];
    assert NoReturns(s[1..]) == ['$'] + NoReturns(s[2..]);
  }

  lemma CharacterReads(s: string, w: string, rest: string)
    requires s != "" && !Interpolates(s) && w == OnePass(s[1..])
    requires s[0] == '$' && |s| >= 2 ==> Interpolates(s[1..]) || s[1] != '$'
    requires ReadString(w + ("\"" + rest)) == Some((NoReturns(s[1..]), rest))
    ensures ReadString(OnePass(s) + ("\"" + rest)) == Some((NoReturns(s), rest))
  {
    var u := w + ("\"" + rest);
    OnePassStep(s);
    Regroup(Image(s[0]), w, "\"" + rest);
    ReadImage(s[0], u);
  }

  lemma {:induction false} ReadsOnePass(s: string, rest: string)
    ensures ReadString(OnePass(s) + ("\"" + rest)) == Some((NoReturns(s), rest))
    decreases |s|
  {
    if s == "" {
      ReadEnd(rest);
    } else if Interpolates(s) {
      ReadsOnePass(s[2..], rest);
      InterpolationReads(s, OnePass(s[2..]), rest);
    } else if |s| >= 2 && s[0] == '$' == s[1] && !Interpolates(s[1..]) {
      ReadsOnePass(s[2..], rest);
      DollarsRead(s, OnePass(s[2..]), rest);
    } else {
      ReadsOnePass(s[1..], rest);
      CharacterReads(s, OnePass(s[1..]), rest);
    }
  }

  /** Nothing in the escaped text ends the literal or opens an interpolation. */
  lemma QuotedReadsBack(s: string, rest: string)
    ensures ReadQuoted(QuotedOnto(s, rest)) == Some((NoReturns(s), rest))
    ensures ReadQuoted(QuotedOnto(s, rest)) == Some((s, rest)) <==> '\r' !in s
  {
    EscapeIsOnePass(s);
    ReadsOnePass(s, rest);
    var t := Escape(s) + ("\"" + rest);
    assert ("\"" + t)[1..] == t;
  }

  /// Attribute names

  const NIX_KEYWORDS: seq<string> := ["assert", "else", "if", "in", "inherit", "let", "or", "rec", "then", "with"]

  predicate Ascii(c: char) { c as int < 128 }

  predicate AsciiLetter(c: char) { 'a' <= c <= 'z' || 'A' <= c <= 'Z' }

  predicate AsciiDigit(c: char) { '0' <= c <= '9' }

  /** What `char::is_alphanumeric` is on ASCII; beyond it, any choice will do. */
  ghost predicate Alphanumeric(alnum: char -> bool) {
    forall c | Ascii(c) :: alnum(c) <==> AsciiLetter(c) || AsciiDigit(c)
  }

  predicate NeedsQuoting(alnum: char -> bool, name: string) {
    || name in NIX_KEYWORDS
    || '-' in name || '.' in name || '$' in name || '/' in name || ' ' in name
    || (name != "" && AsciiDigit(name[0]))
    || exists i | 0 <= i < |name| :: !alnum(name[i]) && name[i] != '_'
  }

  function AttrNameOnto(alnum: char -> bool, name: string, rest: string): string {
    if NeedsQuoting(alnum, name) then QuotedOnto(name, rest) else name + rest
  }

  /** What the lexer reads as a keyword; `or` is none where a name may stand. */
  const RESERVED: seq<string> := ["if", "then", "else", "assert", "with", "let", "in", "rec", "inherit"]

  lemma ReservedAreQuoted(alnum: char -> bool, name: string)
    requires name in RESERVED
    ensures NeedsQuoting(alnum, name)
  {}

  /** The lexer's identifiers: `[a-zA-Z_][a-zA-Z0-9_'-]*`, keywords aside. */
  predicate IdentifierStart(c: char) { AsciiLetter(c) || c == '_' }

  predicate IdentifierChar(c: char) { IdentifierStart(c) || AsciiDigit(c) || c == '\'' || c == '-' }

  function IdentifierLength(s: string): (n: nat)
    ensures n <= |s|
    ensures forall i | 0 <= i < n :: IdentifierChar(s[i])
    ensures n < |s| ==> !IdentifierChar(s[n])
  {
    if s == "" || !IdentifierChar(s[0]) then 0 else 1 + IdentifierLength(s[1..])
  }

  function ReadAttrName(s: string): (r: Option<(string, string)>)
    ensures r.Some? ==> |r.value.1| < |s|
  {
    if s == "" then None
    else if s[0] == '"' then ReadQuoted(s)
    else if !IdentifierStart(s[0]) then None
    else
      var n := IdentifierLength(s);
      if s[..n] in RESERVED then None else Some((s[..n], s[n..]))
  }

  /** Names the emitted text can carry: quoted, or an identifier of the lexer. */
  predicate NameIsReadable(alnum: char -> bool, name: string) {
    NeedsQuoting(alnum, name) || (name != "" && forall i | 0 <= i < |name| :: Ascii(name[i]))
  }

  lemma BareNameIsIdentifier(alnum: char -> bool, name: string, i: nat)
    requires Alphanumeric(alnum) && !NeedsQuoting(alnum, name) && i < |name|
    ensures IdentifierChar(name[i]) <==> Ascii(name[i])
    ensures i == 0 ==> (IdentifierStart(name[i]) <==> Ascii(name[i]))
    ensures name[i] != '"'
  {
    assert alnum(name[i]) || name[i] == '_';
    assert name[i] != '-' && Ascii('\'') && Ascii('"');
  }

  lemma BareNameReads(alnum: char -> bool, name: string, rest: string)
    requires Alphanumeric(alnum) && !NeedsQuoting(alnum, name)
    requires rest != "" && rest[0] == ' '
    ensures NameIsReadable(alnum, name) ==> ReadAttrName(name + rest) == Some((name, rest))
    ensures !NameIsReadable(alnum, name) ==> ReadAttrName(name + rest).None? || ReadAttrName(name + rest).value.0 != name
  {
    var s := name + rest;
    if name == "" {
      assert s[0] == ' ';
    } else {
      BareNameIsIdentifier(alnum, name, 0);
      var n := IdentifierLength(s);
      if NameIsReadable(alnum, name) {
        forall i | 0 <= i < |name| ensures IdentifierChar(s[i]) {
          BareNameIsIdentifier(alnum, name, i);
        }
        assert s[|name|] == ' ';
        assert s[..n] == name && s[n..] == rest;
        if name in RESERVED {
          ReservedAreQuoted(alnum, name);
        }
      } else {
        var i :| 0 <= i < |name| && !Ascii(name[i]);
        BareNameIsIdentifier(alnum, name, i);
        assert s[i] == name[i] && n <= i;
        assert |s[..n]| < |name|;
      }
    }
  }

  /**
    An attribute name is read back, up to carriage returns, exactly when it is
    quoted, or is neither empty nor outside ASCII.
   */
  lemma NameReadsBack(alnum: char -> bool, name: string, rest: string)
    requires Alphanumeric(alnum) && rest != "" && rest[0] == ' '
    ensures ReadAttrName(AttrNameOnto(alnum, name, rest)) == Some((NoReturns(name), rest))
            <==> NameIsReadable(alnum, name)
  {
    if NeedsQuoting(alnum, name) {
      QuotedReadsBack(name, rest);
    } else {
      BareNameReads(alnum, name, rest);
      assert '\r' !in name by {
        forall i | 0 <= i < |name| ensures name[i] != '\r' {
          BareNameIsIdentifier(alnum, name, i);
        }
      }
    }
  }

  lemma KeywordsAreLong(name: string)
    requires |name| < 2
    ensures name !in RESERVED
  {}

  /** The empty name, and any letter beyond ASCII, is written bare and lost. */
  lemma BareNamesAreLost(alnum: char -> bool, c: char, rest: string)
    requires Alphanumeric(alnum) && !Ascii(c) && alnum(c) && rest != "" && rest[0] == ' '
    ensures ReadAttrName(AttrNameOnto(alnum, "", rest)).None?
    ensures ReadAttrName(AttrNameOnto(alnum, [c], rest)).None?
  {
    assert "" + rest == rest;
    assert ([c] + rest)[0] == c;
    assert !IdentifierStart(c) && c != '"';
    KeywordsAreLong([c]);
  }
}
