/**
  Assignments as cli/src/commands/secrets.rs quotes them and a POSIX shell
  sources them: one line a variable, its value between single quotes.
 */
module ShellText {
  import opened Prelude
  import opened Strings

  // Quoting is sections 2.2.1 and 2.2.2 of the Shell Command Language: a
  // single-quoted run is literal, a backslash outside one keeps the next
  // character.

  function ShellQuote(value: string): string {
    "'" + (Replace(value, "'", "'\\''") + "'")
  }

  function Line(name: string, value: string): string {
    name + ("=" + (ShellQuote(value) + "\n"))
  }

  /// Reading

  /** The rest of a word, and the text after the newline that ends it. Only quoted text is read. */
  function ReadWord(s: string, quoted: bool): (r: Option<(string, string)>)
    ensures r.Some? ==> |r.value.1| <= |s|
    decreases |s|
  {
    if s == "" then if quoted then None else Some(("", ""))
    else if quoted then
      if s[0] == '\'' then ReadWord(s[1..], false) else Before([s[0]], ReadWord(s[1..], true))
    else if s[0] == '\n' then Some(("", s[1..]))
    else if s[0] == '\'' then ReadWord(s[1..], true)
    else if s[0] == '\\' && |s| >= 2 then
      if s[1] == '\n' then ReadWord(s[2..], false) else Before([s[1]], ReadWord(s[2..], false))
    else None
  }

  function NameLength(s: string): (n: nat)
    ensures n <= |s|
    ensures forall i | 0 <= i < n :: s[i] != '='
    ensures n < |s| ==> s[n] == '='
  {
    if s == "" || s[0] == '=' then 0 else 1 + NameLength(s[1..])
  }

  predicate NameChar(c: char) {
    'a' <= c <= 'z' || 'A' <= c <= 'Z' || '0' <= c <= '9' || c == '_'
  }

  predicate IsName(s: string) {
    s != "" && !('0' <= s[0] <= '9') && forall i | 0 <= i < |s| :: NameChar(s[i])
  }

  type Env = map<string, string>

  /** The environment after the assignments of a text, the later over the earlier. */
  function Source(text: string, env: Env): Option<Env>
    decreases |text|
  {
    if text == "" then Some(env)
    else
      var n := NameLength(text);
      if n == |text| || !IsName(text[..n]) then None
      else
        match ReadWord(text[n + 1..], false)
        case None => None
        case Some((value, rest)) => Source(rest, env[text[..n] := value])
  }

  /// Reading undoes quoting

  lemma ReadQuoteMark(u: string)
    ensures ReadWord("'" + u, true) == ReadWord(u, false)
    ensures ReadWord("'" + u, false) == ReadWord(u, true)
  {
    assert ("'" + u)[1..] == u;
  }

  lemma ReadEscapedMark(u: string)
    ensures ReadWord("'\\''" + u, true) == Before("'", ReadWord(u, true))
  {
    var s := "'\\''" + u;
    assert s == "'" + ("\\'" + ("'" + u));
    ReadQuoteMark("\\'" + ("'" + u));
    var w := "\\'" + ("'" + u);
    assert w[2..] == "'" + u;
    ReadQuoteMark(u);
  }

  lemma ReadPlain(c: char, u: string)
    requires c != '\''
    ensures ReadWord([c] + u, true) == Before([c], ReadWord(u, true))
  {
    assert ([c] + u)[1..] == u;
  }

  lemma {:induction false} QuotedReads(value: string, t: string)
    ensures ReadWord(Replace(value, "'", "'\\''") + ("'" + ("\n" + t)), true) == Some((value, t))
    decreases |value|
  {
    var end := "'" + ("\n" + t);
    if value == "" {
      assert "" + end == end;
      ReadQuoteMark("\n" + t);
      assert ("\n" + t)[1..] == t;
    } else {
      var c, rest := value[0], value[1..];
      var w := Replace(rest, "'", "'\\''");
      assert value == [c] + rest;
      QuotedReads(rest, t);
      if c == '\'' {
        ReplaceHits(rest, "'", "'\\''");
        assert ("'\\''" + w) + end == "'\\''" + (w + end);
        ReadEscapedMark(w + end);
      } else {
        ReplaceCopies([c], rest, "'", "'\\''");
        assert ([c] + w) + end == [c] + (w + end);
        ReadPlain(c, w + end);
      }
    }
  }

  lemma LineRegroup(name: string, w: string, t: string)
    ensures (name + ("=" + (("'" + (w + "'")) + "\n"))) + t == name + ("=" + ("'" + (w + ("'" + ("\n" + t)))))
  {}

  /** A line assigns its value to its name, whatever the value holds. */
  lemma LineAssigns(name: string, value: string, t: string, env: Env)
    requires IsName(name)
    ensures Source(Line(name, value) + t, env) == Source(t, env[name := value])
  {
    var w := Replace(value, "'", "'\\''");
    var word := "'" + (w + ("'" + ("\n" + t)));
    var text := name + ("=" + word);
    LineRegroup(name, w, t);
    QuotedReads(value, t);
    ReadQuoteMark(w + ("'" + ("\n" + t)));
    NameEnds(name, word);
    assert text[..|name|] == name && text[|name| + 1..] == word;
  }

  lemma {:induction false} NameEnds(name: string, word: string)
    requires forall i | 0 <= i < |name| :: NameChar(name[i])
    ensures NameLength(name + ("=" + word)) == |name|
  {
    var text := name + ("=" + word);
    assert text[|name|] == '=';
    assert forall i | 0 <= i < |name| :: text[i] == name[i];
  }
}
