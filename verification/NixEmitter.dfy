/**
  The printer of option types in cli/src/codegen/nix_emitter.rs, and a reader of
  the text it prints.

  `…Onto(x, rest)` is the text of `x` with the rest of the document behind it; a
  reader returns what it read and that rest. That reading undoes printing is
  proved in `NixRoundTrip`.
 */
module NixEmitter {
  import opened Prelude
  import opened NixTypes
  import opened NixStrings
  import opened NixIndented
  import Ordering

  /**
    `alnum` is Unicode's `char::is_alphanumeric`, and `indented` what a
    description of several lines becomes inside an indented string; what the
    source makes of it is `NixIndented.Indented`.
   */
  datatype Emitter = Emitter(alnum: char -> bool, includeDescriptions: bool, indented: string -> string)

  /// Printing

  function StringsOnto(values: seq<string>, rest: string): string {
    if values == [] then rest
    else if |values| == 1 then QuotedOnto(values[0], rest)
    else QuotedOnto(values[0], " " + StringsOnto(values[1..], rest))
  }

  function TypesOnto(e: Emitter, types: seq<NixType>, rest: string): string
    decreases types, 2, 0
  {
    if types == [] then rest
    else if |types| == 1 then TypeOnto(e, types[0], rest)
    else TypeOnto(e, types[0], " " + TypesOnto(e, types[1..], rest))
  }

  function TypeOnto(e: Emitter, ty: NixType, rest: string): string
    decreases ty, 1, 0
  {
    match ty
    case Str => "types.str" + rest
    case Int => "types.int" + rest
    case Float => "types.float" + rest
    case Bool => "types.bool" + rest
    case Anything => "types.anything" + rest
    case Attrs => "types.attrs" + rest
    case Raw => "types.raw" + rest
    case Package => "types.package" + rest
    case Path => "types.path" + rest
    case NullOr(inner) => "(types.nullOr " + TypeOnto(e, inner, ")" + rest)
    case ListOf(inner) => "(types.listOf " + TypeOnto(e, inner, ")" + rest)
    case AttrsOf(inner) => "(types.attrsOf " + TypeOnto(e, inner, ")" + rest)
    case Enum(values) => "(types.enum [ " + StringsOnto(values, " ])" + rest)
    case Either(left, right) =>
      "(types.either " + TypeOnto(e, left, " " + TypeOnto(e, right, ")" + rest))
    case OneOf(types) => "(types.oneOf [ " + TypesOnto(e, types, " ])" + rest)
    case Submodule(options, freeform) =>
      "(mkTypedSubmodule {\n  options = {\n"
      + OptionsOnto(e, ty, Ordering.Keys(options.Keys), "  };" + FreeformOnto(e, ty, "\n})" + rest))
    case Ref(_) => "types.attrs" + rest
  }

  function FreeformOnto(e: Emitter, ty: NixType, rest: string): string
    requires ty.Submodule?
    decreases ty, 0, 0
  {
    if ty.freeform.None? then rest
    else "\n  freeformType = " + TypeOnto(e, ty.freeform.value, ";" + rest)
  }

  /** The options named, in the order named. */
  function OptionsOnto(e: Emitter, ty: NixType, names: seq<string>, rest: string): string
    requires ty.Submodule? && forall k | k in names :: k in ty.options
    decreases ty, 0, |names|
  {
    if names == [] then rest
    else
      "    " + OptionOnto(e, names[0], ty.options[names[0]], "\n" + OptionsOnto(e, ty, names[1..], rest))
  }

  function OptionOnto(e: Emitter, name: string, option: NixOption, rest: string): string
    decreases option.ty, 2, 0
  {
    AttrNameOnto(e.alnum, name, " = mkOption {\n      type = " + TypeOnto(e, option.ty, ";" +
      DefaultOnto(option.default, DescriptionOnto(e, option.description, "\n    };" + rest))))
  }

  function DefaultOnto(default: Option<string>, rest: string): string {
    if default.None? then rest else "\n      default = " + (default.value + (";" + rest))
  }

  function DescriptionOnto(e: Emitter, description: Option<string>, rest: string): string {
    if !e.includeDescriptions || description.None? then rest
    else if '\n' in description.value then
      "\n      description = ''\n        " + (e.indented(description.value) + ("\n      '';" + rest))
    else "\n      description = " + QuotedOnto(description.value, ";" + rest)
  }

  function Emit(e: Emitter, ty: NixType): string { TypeOnto(e, ty, "") }

  /// Reading

  /** The text behind a literal, if the text starts with it. */
  function After(literal: string, s: string): (r: Option<string>)
    ensures r.Some? ==> s == literal + r.value
  {
    if literal <= s then Some(s[|literal|..]) else None
  }

  function ParseType(s: string): (r: Option<(NixType, string)>)
    ensures r.Some? ==> |r.value.1| < |s|
    decreases |s|, 2
  {
    if |s| < 9 then None
    else if s[0] == 't' then ParseWord(s)
    else if s[1] == 'm' then ParseSubmodule(s)
    else
      match s[7]
      case 'n' =>
        var (t, r) :- ParseWrapped("(types.nullOr ", s);
        Some((NullOr(t), r))
      case 'l' =>
        var (t, r) :- ParseWrapped("(types.listOf ", s);
        Some((ListOf(t), r))
      case 'a' =>
        var (t, r) :- ParseWrapped("(types.attrsOf ", s);
        Some((AttrsOf(t), r))
      case 'o' =>
        var s1 :- After("(types.oneOf [ ", s);
        var (ts, r) :- ParseTypes(s1);
        Some((OneOf(ts), r))
      case 'e' => if s[8] == 'n' then ParseEnum(s) else ParseEither(s)
      case _ => None
  }

  function Word(s: string, word: string, ty: NixType): (r: Option<(NixType, string)>)
    ensures r.Some? && word != "" ==> |r.value.1| < |s|
  {
    var rest :- After(word, s);
    Some((ty, rest))
  }

  function ParseWord(s: string): (r: Option<(NixType, string)>)
    requires |s| >= 9
    ensures r.Some? ==> |r.value.1| < |s|
  {
    match s[6]
    case 's' => Word(s, "types.str", Str)
    case 'i' => Word(s, "types.int", Int)
    case 'f' => Word(s, "types.float", Float)
    case 'b' => Word(s, "types.bool", Bool)
    case 'r' => Word(s, "types.raw", Raw)
    case 'a' => if s[7] == 'n' then Word(s, "types.anything", Anything) else Word(s, "types.attrs", Attrs)
    case 'p' => if s[8] == 'c' then Word(s, "types.package", Package) else Word(s, "types.path", Path)
    case _ => None
  }

  function ParseWrapped(head: string, s: string): (r: Option<(NixType, string)>)
    requires head != ""
    ensures r.Some? ==> |r.value.1| < |s|
    decreases |s|, 1
  {
    var s1 :- After(head, s);
    var (t, s2) :- ParseType(s1);
    var s3 :- After(")", s2);
    Some((t, s3))
  }

  function ParseEither(s: string): (r: Option<(NixType, string)>)
    ensures r.Some? ==> |r.value.1| < |s|
    decreases |s|, 1
  {
    var s1 :- After("(types.either ", s);
    var (a, s2) :- ParseType(s1);
    var s3 :- After(" ", s2);
    var (b, s4) :- ParseType(s3);
    var s5 :- After(")", s4);
    Some((Either(a, b), s5))
  }

  function ParseEnum(s: string): (r: Option<(NixType, string)>)
    ensures r.Some? ==> |r.value.1| < |s|
  {
    var s1 :- After("(types.enum [ ", s);
    var (vs, r) :- ParseStrings(s1);
    Some((Enum(vs), r))
  }

  /** What follows `[ `: the elements, a space between two, and the closing ` ])`. */
  function ParseStrings(s: string): (r: Option<(seq<string>, string)>)
    ensures r.Some? ==> |r.value.1| < |s|
    decreases |s|
  {
    if s == "" then None
    else if s[0] == ' ' then
      var r :- After(" ])", s);
      Some(([], r))
    else
      var (v, s1) :- ReadQuoted(s);
      if |s1| >= 2 && s1[1] == ']' then
        var r :- After(" ])", s1);
        Some(([v], r))
      else
        var s2 :- After(" ", s1);
        var (vs, r) :- ParseStrings(s2);
        Some(([v] + vs, r))
  }

  function ParseTypes(s: string): (r: Option<(seq<NixType>, string)>)
    ensures r.Some? ==> |r.value.1| < |s|
    decreases |s|, 3
  {
    if s == "" then None
    else if s[0] == ' ' then
      var r :- After(" ])", s);
      Some(([], r))
    else
      var (t, s1) :- ParseType(s);
      if |s1| >= 2 && s1[1] == ']' then
        var r :- After(" ])", s1);
        Some(([t], r))
      else
        var s2 :- After(" ", s1);
        var (ts, r) :- ParseTypes(s2);
        Some(([t] + ts, r))
  }

  function ParseSubmodule(s: string): (r: Option<(NixType, string)>)
    ensures r.Some? ==> |r.value.1| < |s|
    decreases |s|, 1
  {
    var s1 :- After("(mkTypedSubmodule {\n  options = {\n", s);
    var (options, s2) :- ParseOptions(s1);
    var (freeform, s3) :- ParseFreeform(s2);
    var s4 :- After("\n})", s3);
    Some((Submodule(options, freeform), s4))
  }

  function ParseFreeform(s: string): (r: Option<(Option<NixType>, string)>)
    ensures r.Some? ==> |r.value.1| <= |s|
    decreases |s|, 3
  {
    if |s| < 2 || s[1] != ' ' then Some((None, s))
    else
      var s1 :- After("\n  freeformType = ", s);
      var (t, s2) :- ParseType(s1);
      var s3 :- After(";", s2);
      Some((Some(t), s3))
  }

  /** The options up to the closing brace. A name given twice is an error in Nix. */
  function ParseOptions(s: string): (r: Option<(map<string, NixOption>, string)>)
    ensures r.Some? ==> |r.value.1| < |s|
    decreases |s|, 4
  {
    if |s| < 3 then None
    else if s[2] == '}' then
      var r :- After("  };", s);
      Some((map[], r))
    else
      var s1 :- After("    ", s);
      var (name, option, s2) :- ParseOption(s1);
      var s3 :- After("\n", s2);
      var (options, r) :- ParseOptions(s3);
      if name in options then None else Some((options[name := option], r))
  }

  function ParseOption(s: string): (r: Option<(string, NixOption, string)>)
    ensures r.Some? ==> |r.value.2| < |s|
    decreases |s|, 3
  {
    var (name, s1) :- ReadAttrName(s);
    var s2 :- After(" = mkOption {\n      type = ", s1);
    var (ty, s3) :- ParseType(s2);
    var s4 :- After(";", s3);
    var (default, s5) :- ParseDefault(s4);
    var (description, s6) :- ParseDescription(s5);
    var s7 :- After("\n    };", s6);
    Some((name, NixOption(ty, default, description), s7))
  }

  /** The only default the schema converter writes is `null`. */
  function ParseDefault(s: string): (r: Option<(Option<string>, string)>)
    ensures r.Some? ==> |r.value.1| <= |s|
  {
    if |s| < 10 || s[5] != ' ' || s[9] != 'f' then Some((None, s))
    else
      var s1 :- After("\n      default = ", s);
      var s2 :- After("null", s1);
      var s3 :- After(";", s2);
      Some((Some("null"), s3))
  }

  /** A string of either kind; an indented one as it is written, margins and escapes included. */
  function ReadText(s: string): (r: Option<(string, string)>)
    ensures r.Some? ==> |r.value.1| < |s|
  {
    if QUOTES <= s then ReadIndented(s[2..]) else ReadQuoted(s)
  }

  function ParseDescription(s: string): (r: Option<(Option<string>, string)>)
    ensures r.Some? ==> |r.value.1| <= |s|
  {
    if |s| < 10 || s[5] != ' ' || s[9] != 's' then Some((None, s))
    else
      var s1 :- After("\n      description = ", s);
      var (d, s2) :- ReadText(s1);
      var s3 :- After(";", s2);
      Some((Some(d), s3))
  }
}
