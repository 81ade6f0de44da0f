/** Reading a printed option type gives it back. */
module NixRoundTrip {
  import opened Prelude
  import opened Json
  import opened NixTypes
  import opened NixStrings
  import opened NixIndented
  import opened NixEmitter
  import opened Sequences
  import Ordering

  // References are read as `types.attrs`, unprinted descriptions are gone, and
  // descriptions of several lines are read as they are written.

  /// What is read back

  function AsRead(e: Emitter, ty: NixType): NixType
    decreases ty
  {
    match ty
    case NullOr(inner) => NullOr(AsRead(e, inner))
    case ListOf(inner) => ListOf(AsRead(e, inner))
    case AttrsOf(inner) => AttrsOf(AsRead(e, inner))
    case Either(left, right) => Either(AsRead(e, left), AsRead(e, right))
    case OneOf(types) => OneOf(seq(|types|, i requires 0 <= i < |types| => AsRead(e, types[i])))
    case Submodule(options, freeform) =>
      Submodule(
        map k | k in options :: OptionAsRead(e, options[k]),
        if freeform.None? then None else Some(AsRead(e, freeform.value)))
    case Ref(_) => Attrs
    case _ => ty
  }

  function OptionAsRead(e: Emitter, option: NixOption): NixOption
    decreases option
  {
    NixOption(AsRead(e, option.ty), option.default, Shown(e, option.description))
  }

  function Shown(e: Emitter, description: Option<string>): Option<string> {
    if !e.includeDescriptions || description.None? then None
    else Some(TextAsRead(e, description.value))
  }

  /** One line is read as itself, several as what stands between the quotes. */
  function TextAsRead(e: Emitter, text: string): string {
    if '\n' in text then BetweenQuotes(e.indented(text)) else text
  }

  /**
    Types whose text the Nix lexer can read: names as `NameIsReadable` says, no
    carriage returns in names, enumerations and descriptions of one line, none
    of several lines that closes its own string, `null` the one default.
   */
  predicate Printable(e: Emitter, ty: NixType)
    decreases ty
  {
    match ty
    case NullOr(inner) => Printable(e, inner)
    case ListOf(inner) => Printable(e, inner)
    case AttrsOf(inner) => Printable(e, inner)
    case Enum(values) => forall i | 0 <= i < |values| :: '\r' !in values[i]
    case Either(left, right) => Printable(e, left) && Printable(e, right)
    case OneOf(types) => forall i | 0 <= i < |types| :: Printable(e, types[i])
    case Submodule(options, freeform) =>
      && (forall k | k in options ::
            && NameIsReadable(e.alnum, k) && '\r' !in k
            && Printable(e, options[k].ty)
            && PrintableDefault(options[k].default)
            && PrintableDescription(e, options[k].description))
      && (freeform.Some? ==> Printable(e, freeform.value))
    case _ => true
  }

  predicate PrintableDefault(default: Option<string>) {
    default.None? || default.value == "null"
  }

  predicate PrintableDescription(e: Emitter, description: Option<string>) {
    e.includeDescriptions && description.Some? ==> PrintableText(e, description.value)
  }

  predicate PrintableText(e: Emitter, text: string) {
    if '\n' in text then e.indented(text) == Indented(text) && IsClosed(text) else '\r' !in text
  }

  /// One construct at a time

  lemma ReadsAfter(literal: string, t: string)
    ensures After(literal, literal + t) == Some(t)
  {
    assert (literal + t)[|literal|..] == t;
  }

  predicate IsWord(ty: NixType) {
    match ty
    case Str | Int | Float | Bool | Anything | Attrs | Raw | Package | Path | Ref(_) => true
    case _ => false
  }

  lemma WordReads(e: Emitter, ty: NixType, t: string)
    requires IsWord(ty)
    ensures ParseType(TypeOnto(e, ty, t)) == Some((AsRead(e, ty), t))
  {
    match ty
    case Str => ReadsAfter("types.str", t);
    case Int => ReadsAfter("types.int", t);
    case Float => ReadsAfter("types.float", t);
    case Bool => ReadsAfter("types.bool", t);
    case Anything => ReadsAfter("types.anything", t);
    case Attrs => ReadsAfter("types.attrs", t);
    case Raw => ReadsAfter("types.raw", t);
    case Package => ReadsAfter("types.package", t);
    case Path => ReadsAfter("types.path", t);
    case Ref(_) => ReadsAfter("types.attrs", t);
  }

  lemma WrappedReads(head: string, x: string, n: NixType, t: string)
    requires head != "" && ParseType(x) == Some((n, ")" + t))
    ensures ParseWrapped(head, head + x) == Some((n, t))
  {
    ReadsAfter(head, x);
    ReadsAfter(")", t);
  }

  lemma NullOrReads(x: string, n: NixType, t: string)
    requires ParseType(x) == Some((n, ")" + t))
    ensures ParseType("(types.nullOr " + x) == Some((NullOr(n), t))
  {
    var s := "(types.nullOr " + x;
    WrappedReads("(types.nullOr ", x, n, t);
    assert |s| >= 9 && s[0] == '(' && s[1] == 't' && s[7] == 'n';
  }

  lemma ListOfReads(x: string, n: NixType, t: string)
    requires ParseType(x) == Some((n, ")" + t))
    ensures ParseType("(types.listOf " + x) == Some((ListOf(n), t))
  {
    var s := "(types.listOf " + x;
    WrappedReads("(types.listOf ", x, n, t);
    assert |s| >= 9 && s[0] == '(' && s[1] == 't' && s[7] == 'l';
  }

  lemma AttrsOfReads(x: string, n: NixType, t: string)
    requires ParseType(x) == Some((n, ")" + t))
    ensures ParseType("(types.attrsOf " + x) == Some((AttrsOf(n), t))
  {
    var s := "(types.attrsOf " + x;
    WrappedReads("(types.attrsOf ", x, n, t);
    assert |s| >= 9 && s[0] == '(' && s[1] == 't' && s[7] == 'a';
  }

  lemma EitherReads(x: string, y: string, a: NixType, b: NixType, t: string)
    requires ParseType(x) == Some((a, " " + y))
    requires ParseType(y) == Some((b, ")" + t))
    ensures ParseType("(types.either " + x) == Some((Either(a, b), t))
  {
    var s := "(types.either " + x;
    ReadsAfter("(types.either ", x);
    ReadsAfter(" ", y);
    ReadsAfter(")", t);
    assert ParseEither(s) == Some((Either(a, b), t));
    assert s[7] == 'e' && s[8] == 'i';
  }

  lemma EnumReads(x: string, values: seq<string>, t: string)
    requires ParseStrings(x) == Some((values, t))
    ensures ParseType("(types.enum [ " + x) == Some((Enum(values), t))
  {
    var s := "(types.enum [ " + x;
    ReadsAfter("(types.enum [ ", x);
    assert ParseEnum(s) == Some((Enum(values), t));
    assert s[7] == 'e' && s[8] == 'n';
  }

  lemma OneOfReads(x: string, types: seq<NixType>, t: string)
    requires ParseTypes(x) == Some((types, t))
    ensures ParseType("(types.oneOf [ " + x) == Some((OneOf(types), t))
  {
    var s := "(types.oneOf [ " + x;
    ReadsAfter("(types.oneOf [ ", x);
    assert s[7] == 'o';
  }

  lemma SubmoduleParts(
    x: string, options: map<string, NixOption>, y: string, freeform: Option<NixType>, t: string)
    requires ParseOptions(x) == Some((options, y))
    requires ParseFreeform(y) == Some((freeform, "\n})" + t))
    ensures ParseSubmodule("(mkTypedSubmodule {\n  options = {\n" + x) == Some((Submodule(options, freeform), t))
  {
    ReadsAfter("(mkTypedSubmodule {\n  options = {\n", x);
    ReadsAfter("\n})", t);
  }

  lemma SubmoduleHead(x: string)
    ensures ParseType("(mkTypedSubmodule {\n  options = {\n" + x)
            == ParseSubmodule("(mkTypedSubmodule {\n  options = {\n" + x)
  {
    var s := "(mkTypedSubmodule {\n  options = {\n" + x;
    assert |s| >= 9 && s[0] == '(' && s[1] == 'm';
  }

  lemma SubmoduleReads(
    x: string, options: map<string, NixOption>, y: string, freeform: Option<NixType>, t: string)
    requires ParseOptions(x) == Some((options, y))
    requires ParseFreeform(y) == Some((freeform, "\n})" + t))
    ensures ParseType("(mkTypedSubmodule {\n  options = {\n" + x) == Some((Submodule(options, freeform), t))
  {
    SubmoduleParts(x, options, y, freeform, t);
    SubmoduleHead(x);
  }

  /// Lists

  lemma EmptyListReads(t: string)
    ensures ParseStrings(" ])" + t) == Some(([], t))
    ensures ParseTypes(" ])" + t) == Some(([], t))
  {
    ReadsAfter(" ])", t);
  }

  lemma LastStringReads(v: string, t: string)
    requires '\r' !in v
    ensures ParseStrings(QuotedOnto(v, " ])" + t)) == Some(([v], t))
  {
    var rest := " ])" + t;
    QuotedReadsBack(v, rest);
    ReadsAfter(" ])", t);
    assert rest[1] == ']';
  }

  lemma NextStringReads(v: string, y: string, values: seq<string>, t: string)
    requires '\r' !in v && y != "" && y[0] == '"'
    requires ParseStrings(y) == Some((values, t))
    ensures ParseStrings(QuotedOnto(v, " " + y)) == Some(([v] + values, t))
  {
    QuotedReadsBack(v, " " + y);
    ReadsAfter(" ", y);
    assert (" " + y)[1] == '"';
  }

  lemma StringsHead(values: seq<string>, t: string)
    requires values != []
    ensures StringsOnto(values, t) != "" && StringsOnto(values, t)[0] == '"'
  {}

  lemma StringsStep(values: seq<string>, t: string)
    requires |values| > 1
    ensures StringsOnto(values, t) == QuotedOnto(values[0], " " + StringsOnto(values[1..], t))
    ensures values == [values[0]] + values[1..]
  {}

  lemma {:induction false} StringsRead(values: seq<string>, t: string)
    requires forall i | 0 <= i < |values| :: '\r' !in values[i]
    ensures ParseStrings(StringsOnto(values, " ])" + t)) == Some((values, t))
    decreases |values|
  {
    var end := " ])" + t;
    if values == [] {
      EmptyListReads(t);
    } else if |values| == 1 {
      LastStringReads(values[0], t);
      assert values == [values[0]];
    } else {
      var v, rest := values[0], values[1..];
      StringsRead(rest, t);
      StringsHead(rest, end);
      StringsStep(values, end);
      NextStringReads(v, StringsOnto(rest, end), rest, t);
    }
  }

  lemma LastTypeReads(x: string, n: NixType, t: string)
    requires x != "" && x[0] != ' ' && ParseType(x) == Some((n, " ])" + t))
    ensures ParseTypes(x) == Some(([n], t))
  {
    ReadsAfter(" ])", t);
    assert (" ])" + t)[1] == ']';
  }

  lemma NextTypeReads(x: string, n: NixType, y: string, types: seq<NixType>, t: string)
    requires x != "" && x[0] != ' ' && ParseType(x) == Some((n, " " + y))
    requires y != "" && y[0] != ']' && ParseTypes(y) == Some((types, t))
    ensures ParseTypes(x) == Some(([n] + types, t))
  {
    ReadsAfter(" ", y);
    assert (" " + y)[1] == y[0];
  }

  lemma TypeHead(e: Emitter, ty: NixType, t: string)
    ensures TypeOnto(e, ty, t) != "" && TypeOnto(e, ty, t)[0] in ['t', '(']
  {}

  lemma TypesHead(e: Emitter, types: seq<NixType>, t: string)
    requires types != []
    ensures TypesOnto(e, types, t) != "" && TypesOnto(e, types, t)[0] in ['t', '(']
  {
    TypeHead(e, types[0], t);
    TypeHead(e, types[0], " " + TypesOnto(e, types[1..], t));
  }

  /// Options

  lemma DefaultReads(default: Option<string>, t: string)
    requires PrintableDefault(default)
    requires |t| < 10 || t[5] != ' ' || t[9] != 'f'
    ensures ParseDefault(DefaultOnto(default, t)) == Some((default, t))
  {
    if default.Some? {
      var s1 := "null" + (";" + t);
      ReadsAfter("\n      default = ", s1);
      ReadsAfter("null", ";" + t);
      ReadsAfter(";", t);
    }
  }

  /** A description behind its equals sign. */
  function TextOnto(e: Emitter, text: string, rest: string): string {
    if '\n' in text then QUOTES + (BetweenQuotes(e.indented(text)) + (QUOTES + rest)) else QuotedOnto(text, rest)
  }

  lemma ManyLinesReadBack(e: Emitter, text: string, t: string)
    requires '\n' in text && PrintableText(e, text)
    ensures ReadText(TextOnto(e, text, ";" + t)) == Some((TextAsRead(e, text), ";" + t))
  {
    var rest := ";" + t;
    var u := BetweenQuotes(e.indented(text)) + (QUOTES + rest);
    assert rest[0] == ';';
    IndentedReads(text, rest);
    assert (QUOTES + u)[2..] == u && QUOTES <= QUOTES + u;
  }

  lemma OneLineReadsBack(e: Emitter, text: string, t: string)
    requires '\n' !in text && PrintableText(e, text)
    ensures ReadText(TextOnto(e, text, ";" + t)) == Some((TextAsRead(e, text), ";" + t))
  {
    QuotedReadsBack(text, ";" + t);
    assert QuotedOnto(text, ";" + t)[0] == '"' != QUOTES[0];
  }

  lemma DescriptionIsText(e: Emitter, text: string, t: string)
    ensures DescriptionOnto(e.(includeDescriptions := true), Some(text), t)
            == "\n      description = " + TextOnto(e, text, ";" + t)
  {
    if '\n' in text {
      var ind := e.indented(text);
      BetweenRegroups(ind, QUOTES + (";" + t));
      assert "\n      description = ''\n        " == "\n      description = " + (QUOTES + MARGIN);
      assert "\n      '';" + t == CLOSING + (QUOTES + (";" + t));
    }
  }

  lemma DescriptionReads(e: Emitter, description: Option<string>, t: string)
    requires PrintableDescription(e, description)
    requires |t| < 10 || t[5] != ' ' || t[9] != 's'
    ensures ParseDescription(DescriptionOnto(e, description, t)) == Some((Shown(e, description), t))
  {
    if Shown(e, description).Some? {
      var text := description.value;
      DescriptionIsText(e, text, t);
      assert e.(includeDescriptions := true) == e;
      if '\n' in text {
        ManyLinesReadBack(e, text, t);
      } else {
        OneLineReadsBack(e, text, t);
      }
      TextIsDescription(TextOnto(e, text, ";" + t), TextAsRead(e, text), t);
    }
  }

  lemma TextIsDescription(x: string, text: string, t: string)
    requires ReadText(x) == Some((text, ";" + t))
    ensures ParseDescription("\n      description = " + x) == Some((Some(text), t))
  {
    var s := "\n      description = " + x;
    ReadsAfter("\n      description = ", x);
    ReadsAfter(";", t);
    assert |s| >= 10 && s[5] == ' ' && s[9] == 's';
  }

  lemma DescriptionHead(e: Emitter, description: Option<string>, t: string)
    requires |t| >= 6 && t[5] != ' '
    ensures var s := DescriptionOnto(e, description, t); |s| < 10 || s[5] != ' ' || s[9] != 'f'
  {}

  lemma OptionReads(e: Emitter, name: string, option: NixOption, x: string, y: string, t: string)
    requires Alphanumeric(e.alnum) && NameIsReadable(e.alnum, name) && '\r' !in name
    requires PrintableDefault(option.default) && PrintableDescription(e, option.description)
    requires y == DefaultOnto(option.default, DescriptionOnto(e, option.description, "\n    };" + t))
    requires ParseType(x) == Some((AsRead(e, option.ty), ";" + y))
    ensures ParseOption(AttrNameOnto(e.alnum, name, " = mkOption {\n      type = " + x))
            == Some((name, OptionAsRead(e, option), t))
  {
    var end := "\n    };" + t;
    var z := DescriptionOnto(e, option.description, end);
    assert end[5] == '}';
    NameReadsBack(e.alnum, name, " = mkOption {\n      type = " + x);
    ReadsAfter(" = mkOption {\n      type = ", x);
    ReadsAfter(";", y);
    DescriptionHead(e, option.description, end);
    DefaultReads(option.default, z);
    DescriptionReads(e, option.description, end);
    ReadsAfter("\n    };", t);
  }

  lemma NoOptionReads(t: string)
    ensures ParseOptions("  };" + t) == Some((map[], t))
  {
    ReadsAfter("  };", t);
  }

  lemma NextOptionReads(
    x: string, name: string, option: NixOption, y: string, options: map<string, NixOption>, t: string)
    requires ParseOption(x) == Some((name, option, "\n" + y))
    requires ParseOptions(y) == Some((options, t))
    requires name !in options
    ensures ParseOptions("    " + x) == Some((options[name := option], t))
  {
    ReadsAfter("    ", x);
    ReadsAfter("\n", y);
  }

  lemma NoFreeformReads(t: string)
    ensures ParseFreeform("\n})" + t) == Some((None, "\n})" + t))
  {}

  lemma FreeformReads(x: string, n: NixType, t: string)
    requires ParseType(x) == Some((n, ";" + t))
    ensures ParseFreeform("\n  freeformType = " + x) == Some((Some(n), t))
  {
    ReadsAfter("\n  freeformType = ", x);
    ReadsAfter(";", t);
  }

  /// Whole types

  function OptionsAsRead(e: Emitter, options: map<string, NixOption>, names: seq<string>): map<string, NixOption>
    requires forall k | k in names :: k in options
  {
    map k | k in names :: OptionAsRead(e, options[k])
  }

  lemma OptionsAsReadStep(e: Emitter, options: map<string, NixOption>, names: seq<string>)
    requires names != [] && Distinct(names) && forall k | k in names :: k in options
    ensures names[0] !in OptionsAsRead(e, options, names[1..])
    ensures OptionsAsRead(e, options, names[1..])[names[0] := OptionAsRead(e, options[names[0]])]
            == OptionsAsRead(e, options, names)
  {
    assert names == [names[0]] + names[1..];
  }

  lemma {:induction false} OptionsRead(e: Emitter, ty: NixType, names: seq<string>, t: string)
    requires Alphanumeric(e.alnum) && ty.Submodule? && Printable(e, ty)
    requires Distinct(names) && forall k | k in names :: k in ty.options
    ensures ParseOptions(OptionsOnto(e, ty, names, "  };" + t))
            == Some((OptionsAsRead(e, ty.options, names), t))
    decreases ty, 0, |names|
  {
    if names == [] {
      NoOptionReads(t);
    } else {
      var name, option := names[0], ty.options[names[0]];
      var y := OptionsOnto(e, ty, names[1..], "  };" + t);
      OneOptionReads(e, name, option, "\n" + y);
      OptionsRead(e, ty, names[1..], t);
      OptionsAsReadStep(e, ty.options, names);
      NextOptionReads(OptionOnto(e, name, option, "\n" + y), name, OptionAsRead(e, option), y,
        OptionsAsRead(e, ty.options, names[1..]), t);
    }
  }

  lemma {:induction false} OneOptionReads(e: Emitter, name: string, option: NixOption, t: string)
    requires Alphanumeric(e.alnum) && NameIsReadable(e.alnum, name) && '\r' !in name && Printable(e, option.ty)
    requires PrintableDefault(option.default) && PrintableDescription(e, option.description)
    ensures ParseOption(OptionOnto(e, name, option, t)) == Some((name, OptionAsRead(e, option), t))
    decreases option.ty, 2, 0
  {
    var y := DefaultOnto(option.default, DescriptionOnto(e, option.description, "\n    };" + t));
    TypeReads(e, option.ty, ";" + y);
    OptionReads(e, name, option, TypeOnto(e, option.ty, ";" + y), y, t);
  }

  function FreeformAsRead(e: Emitter, ty: NixType): Option<NixType>
    requires ty.Submodule?
  {
    if ty.freeform.None? then None else Some(AsRead(e, ty.freeform.value))
  }

  lemma {:induction false} FreeformPartReads(e: Emitter, ty: NixType, t: string)
    requires Alphanumeric(e.alnum) && ty.Submodule? && Printable(e, ty)
    ensures ParseFreeform(FreeformOnto(e, ty, "\n})" + t))
            == Some((FreeformAsRead(e, ty), "\n})" + t))
    decreases ty, 0, 0
  {
    var rest := "\n})" + t;
    if ty.freeform.None? {
      NoFreeformReads(t);
    } else {
      var f := ty.freeform.value;
      TypeReads(e, f, ";" + rest);
      FreeformReads(TypeOnto(e, f, ";" + rest), AsRead(e, f), rest);
    }
  }

  function AllAsRead(e: Emitter, types: seq<NixType>): seq<NixType> {
    seq(|types|, i requires 0 <= i < |types| => AsRead(e, types[i]))
  }

  lemma {:induction false} TypesRead(e: Emitter, types: seq<NixType>, t: string)
    requires Alphanumeric(e.alnum) && forall i | 0 <= i < |types| :: Printable(e, types[i])
    ensures ParseTypes(TypesOnto(e, types, " ])" + t)) == Some((AllAsRead(e, types), t))
    decreases types, 2, 0
  {
    var end := " ])" + t;
    if types == [] {
      EmptyListReads(t);
      NoTypes(e, end);
    } else if |types| == 1 {
      TypeReads(e, types[0], end);
      TypeHead(e, types[0], end);
      LastTypeReads(TypeOnto(e, types[0], end), AsRead(e, types[0]), t);
      LastStep(e, types, end);
    } else {
      var rest := types[1..];
      TypesRead(e, rest, t);
      TypeBeforeOthers(e, types[0], rest, t);
      TypesStep(e, types, t);
    }
  }

  lemma NoTypes(e: Emitter, t: string)
    ensures TypesOnto(e, [], t) == t && AllAsRead(e, []) == []
  {}

  lemma LastStep(e: Emitter, types: seq<NixType>, t: string)
    requires |types| == 1
    ensures TypesOnto(e, types, t) == TypeOnto(e, types[0], t) && AllAsRead(e, types) == [AsRead(e, types[0])]
  {}

  lemma TypesStep(e: Emitter, types: seq<NixType>, t: string)
    requires |types| > 1
    ensures TypesOnto(e, types, " ])" + t) == TypeOnto(e, types[0], " " + TypesOnto(e, types[1..], " ])" + t))
    ensures AllAsRead(e, types) == [AsRead(e, types[0])] + AllAsRead(e, types[1..])
  {
    assert forall i | 0 < i < |types| :: types[i] == types[1..][i - 1];
  }

  lemma {:induction false} TypeBeforeOthers(e: Emitter, ty: NixType, others: seq<NixType>, t: string)
    requires Alphanumeric(e.alnum) && Printable(e, ty) && others != []
    requires ParseTypes(TypesOnto(e, others, " ])" + t)) == Some((AllAsRead(e, others), t))
    ensures ParseTypes(TypeOnto(e, ty, " " + TypesOnto(e, others, " ])" + t)))
            == Some(([AsRead(e, ty)] + AllAsRead(e, others), t))
    decreases ty, 2, 0
  {
    var y := TypesOnto(e, others, " ])" + t);
    TypeReads(e, ty, " " + y);
    TypeHead(e, ty, " " + y);
    TypesHead(e, others, " ])" + t);
    NextTypeReads(TypeOnto(e, ty, " " + y), AsRead(e, ty), y, AllAsRead(e, others), t);
  }

  /** The text of a type, whatever follows it, reads back as that type. */
  lemma {:induction false} TypeReads(e: Emitter, ty: NixType, t: string)
    requires Alphanumeric(e.alnum) && Printable(e, ty)
    ensures ParseType(TypeOnto(e, ty, t)) == Some((AsRead(e, ty), t))
    decreases ty, 1, 0
  {
    match ty
    case NullOr(inner) =>
      TypeReads(e, inner, ")" + t);
      NullOrReads(TypeOnto(e, inner, ")" + t), AsRead(e, inner), t);
    case ListOf(inner) =>
      TypeReads(e, inner, ")" + t);
      ListOfReads(TypeOnto(e, inner, ")" + t), AsRead(e, inner), t);
    case AttrsOf(inner) =>
      TypeReads(e, inner, ")" + t);
      AttrsOfReads(TypeOnto(e, inner, ")" + t), AsRead(e, inner), t);
    case Enum(values) =>
      StringsRead(values, t);
      EnumReads(StringsOnto(values, " ])" + t), values, t);
    case Either(left, right) =>
      var y := TypeOnto(e, right, ")" + t);
      TypeReads(e, left, " " + y);
      TypeReads(e, right, ")" + t);
      EitherReads(TypeOnto(e, left, " " + y), y, AsRead(e, left), AsRead(e, right), t);
    case OneOf(types) =>
      TypesRead(e, types, t);
      OneOfReads(TypesOnto(e, types, " ])" + t), AllAsRead(e, types), t);
    case Submodule(options, freeform) =>
      SubmoduleTypeReads(e, ty, t);
    case _ =>
      WordReads(e, ty, t);
  }

  lemma SubmoduleAsRead(e: Emitter, ty: NixType, names: seq<string>)
    requires ty.Submodule? && forall k :: k in names <==> k in ty.options
    ensures AsRead(e, ty) == Submodule(OptionsAsRead(e, ty.options, names), FreeformAsRead(e, ty))
  {
    assert AsRead(e, ty).options == OptionsAsRead(e, ty.options, names);
  }

  lemma {:induction false} SubmoduleTypeReads(e: Emitter, ty: NixType, t: string)
    requires Alphanumeric(e.alnum) && ty.Submodule? && Printable(e, ty)
    ensures ParseType(TypeOnto(e, ty, t)) == Some((AsRead(e, ty), t))
    decreases ty, 0, |ty.options| + 1
  {
    var names := Ordering.Keys(ty.options.Keys);
    var y := FreeformOnto(e, ty, "\n})" + t);
    OptionsRead(e, ty, names, y);
    FreeformPartReads(e, ty, t);
    SubmoduleReads(OptionsOnto(e, ty, names, "  };" + y), OptionsAsRead(e, ty.options, names),
      y, FreeformAsRead(e, ty), t);
    SubmoduleAsRead(e, ty, names);
  }

  /// What printing keeps

  /** Descriptions of several lines put down as they were read. */
  function AsWritten(e: Emitter): Emitter {
    e.(indented := (text: string) => Unwrapped(text))
  }

  function Unwrapped(text: string): string {
    if |MARGIN| + |CLOSING| <= |text| then text[|MARGIN|..|text| - |CLOSING|] else text
  }

  lemma SameDescription(e: Emitter, description: Option<string>, t: string)
    ensures DescriptionOnto(AsWritten(e), Shown(e, description), t) == DescriptionOnto(e, description, t)
  {
    if Shown(e, description).Some? && '\n' in description.value {
      var indented := e.indented(description.value);
      var text := BetweenQuotes(indented);
      assert text[0] == '\n';
      assert text[|MARGIN|..|text| - |CLOSING|] == indented;
    }
  }

  lemma {:induction false} TypesSameText(e: Emitter, types: seq<NixType>, t: string)
    ensures TypesOnto(AsWritten(e), AllAsRead(e, types), t) == TypesOnto(e, types, t)
    decreases types, 2, 0
  {
    if |types| == 1 {
      SameText(e, types[0], t);
    } else if types != [] {
      TypesSameText(e, types[1..], t);
      SameText(e, types[0], " " + TypesOnto(e, types[1..], t));
      assert AllAsRead(e, types)[1..] == AllAsRead(e, types[1..]);
    }
  }

  lemma {:induction false} OptionsSameText(e: Emitter, ty: NixType, names: seq<string>, t: string)
    requires ty.Submodule? && forall k | k in names :: k in ty.options
    ensures OptionsOnto(AsWritten(e), AsRead(e, ty), names, t) == OptionsOnto(e, ty, names, t)
    decreases ty, 0, |names|
  {
    if names != [] {
      var option := ty.options[names[0]];
      var rest := "\n" + OptionsOnto(e, ty, names[1..], t);
      OptionsSameText(e, ty, names[1..], t);
      OptionSameText(e, names[0], option, rest);
      assert AsRead(e, ty).options[names[0]] == OptionAsRead(e, option);
    }
  }

  lemma {:induction false} OptionSameText(e: Emitter, name: string, option: NixOption, t: string)
    ensures OptionOnto(AsWritten(e), name, OptionAsRead(e, option), t) == OptionOnto(e, name, option, t)
    decreases option.ty, 2, 0
  {
    var rest := DescriptionOnto(e, option.description, "\n    };" + t);
    SameDescription(e, option.description, "\n    };" + t);
    SameText(e, option.ty, ";" + DefaultOnto(option.default, rest));
  }

  lemma {:induction false} SubmoduleSameText(e: Emitter, ty: NixType, t: string)
    requires ty.Submodule?
    ensures TypeOnto(AsWritten(e), AsRead(e, ty), t) == TypeOnto(e, ty, t)
    decreases ty, 0, |ty.options| + 1
  {
    var end := "\n})" + t;
    if ty.freeform.Some? {
      SameText(e, ty.freeform.value, ";" + end);
    }
    assert FreeformOnto(AsWritten(e), AsRead(e, ty), end) == FreeformOnto(e, ty, end);
    assert AsRead(e, ty).options.Keys == ty.options.Keys;
    OptionsSameText(e, ty, Ordering.Keys(ty.options.Keys), "  };" + FreeformOnto(e, ty, end));
  }

  /** What is read back, put down as it was read, is the same text. */
  lemma {:induction false} SameText(e: Emitter, ty: NixType, t: string)
    ensures TypeOnto(AsWritten(e), AsRead(e, ty), t) == TypeOnto(e, ty, t)
    decreases ty, 1, 0
  {
    match ty
    case NullOr(inner) => SameText(e, inner, ")" + t);
    case ListOf(inner) => SameText(e, inner, ")" + t);
    case AttrsOf(inner) => SameText(e, inner, ")" + t);
    case Either(left, right) =>
      SameText(e, right, ")" + t);
      SameText(e, left, " " + TypeOnto(e, right, ")" + t));
    case OneOf(types) => TypesSameText(e, types, " ])" + t);
    case Submodule(_, _) => SubmoduleSameText(e, ty, t);
    case _ =>
  }

  /** Two types have the same text exactly when they read back the same. */
  lemma PrintingIsInjective(e: Emitter, a: NixType, b: NixType)
    requires Alphanumeric(e.alnum) && Printable(e, a) && Printable(e, b)
    ensures Emit(e, a) == Emit(e, b) <==> AsRead(e, a) == AsRead(e, b)
  {
    TypeReads(e, a, "");
    TypeReads(e, b, "");
    SameText(e, a, "");
    SameText(e, b, "");
  }

  /** Descriptions are of one line each. */
  predicate OneLineDescriptions(ty: NixType)
    decreases ty
  {
    match ty
    case NullOr(inner) => OneLineDescriptions(inner)
    case ListOf(inner) => OneLineDescriptions(inner)
    case AttrsOf(inner) => OneLineDescriptions(inner)
    case Either(left, right) => OneLineDescriptions(left) && OneLineDescriptions(right)
    case OneOf(types) => forall i | 0 <= i < |types| :: OneLineDescriptions(types[i])
    case Submodule(options, freeform) =>
      && (forall k | k in options ::
            && OneLineDescriptions(options[k].ty)
            && (options[k].description.Some? ==> '\n' !in options[k].description.value))
      && (freeform.Some? ==> OneLineDescriptions(freeform.value))
    case _ => true
  }

  /** Without references, and with descriptions printed on one line, nothing at all is lost. */
  lemma {:induction false} NothingIsLost(e: Emitter, ty: NixType)
    requires NoRef(ty) && e.includeDescriptions && OneLineDescriptions(ty)
    ensures AsRead(e, ty) == ty
    decreases ty
  {
    match ty
    case NullOr(inner) => NothingIsLost(e, inner);
    case ListOf(inner) => NothingIsLost(e, inner);
    case AttrsOf(inner) => NothingIsLost(e, inner);
    case Either(left, right) =>
      NothingIsLost(e, left);
      NothingIsLost(e, right);
    case OneOf(types) =>
      forall i | 0 <= i < |types| ensures AsRead(e, types[i]) == types[i] {
        NothingIsLost(e, types[i]);
      }
      assert AsRead(e, ty).types == types;
    case Submodule(options, freeform) =>
      forall k | k in options ensures OptionAsRead(e, options[k]) == options[k] {
        NothingIsLost(e, options[k].ty);
      }
      if freeform.Some? {
        NothingIsLost(e, freeform.value);
      }
      assert AsRead(e, ty).options == options;
    case _ =>
  }

  lemma {:induction false} ReadTypeHeadIsTheSame(e: Emitter, anyNumber: bool, ty: NixType, v: Json)
    ensures Head(anyNumber, AsRead(e, ty), v) == Head(anyNumber, ty, v)
    decreases ty
  {
    match ty
    case NullOr(inner) => ReadTypeHeadIsTheSame(e, anyNumber, inner, v);
    case Either(left, right) =>
      ReadTypeHeadIsTheSame(e, anyNumber, left, v);
      ReadTypeHeadIsTheSame(e, anyNumber, right, v);
    case OneOf(types) =>
      var read := AsRead(e, ty).types;
      forall i | 0 <= i < |types| ensures Head(anyNumber, read[i], v) == Head(anyNumber, types[i], v) {
        ReadTypeHeadIsTheSame(e, anyNumber, types[i], v);
      }
    case _ =>
  }

  /** The type read back admits exactly the values the printed one admits. */
  lemma {:induction false} ReadTypeAdmitsTheSame(e: Emitter, anyNumber: bool, ty: NixType, v: Json)
    ensures Admits(anyNumber, AsRead(e, ty), v) == Admits(anyNumber, ty, v)
    decreases ty, 1
  {
    match ty
    case NullOr(inner) => ReadTypeAdmitsTheSame(e, anyNumber, inner, v);
    case ListOf(inner) => EachAdmitsTheSame(e, anyNumber, inner, v);
    case AttrsOf(inner) => EachAdmitsTheSame(e, anyNumber, inner, v);
    case Either(_, _) => EitherAdmitsTheSame(e, anyNumber, ty, v);
    case OneOf(types) => OneOfAdmitsTheSame(e, anyNumber, ty, v);
    case Submodule(_, _) => SubmoduleAdmitsTheSame(e, anyNumber, ty, v);
    case _ =>
  }

  lemma {:induction false} EitherAdmitsTheSame(e: Emitter, anyNumber: bool, ty: NixType, v: Json)
    requires ty.Either?
    ensures Admits(anyNumber, AsRead(e, ty), v) == Admits(anyNumber, ty, v)
    decreases ty, 0
  {
    ReadTypeHeadIsTheSame(e, anyNumber, ty.left, v);
    ReadTypeAdmitsTheSame(e, anyNumber, ty.left, v);
    ReadTypeAdmitsTheSame(e, anyNumber, ty.right, v);
  }

  lemma {:induction false} EachAdmitsTheSame(e: Emitter, anyNumber: bool, inner: NixType, v: Json)
    ensures Admits(anyNumber, ListOf(AsRead(e, inner)), v) == Admits(anyNumber, ListOf(inner), v)
    ensures Admits(anyNumber, AttrsOf(AsRead(e, inner)), v) == Admits(anyNumber, AttrsOf(inner), v)
    decreases inner, 2
  {
    forall x ensures Admits(anyNumber, AsRead(e, inner), x) == Admits(anyNumber, inner, x) {
      ReadTypeAdmitsTheSame(e, anyNumber, inner, x);
    }
  }

  lemma SameFirstHead(anyNumber: bool, a: seq<NixType>, b: seq<NixType>, i: nat, v: Json)
    requires |a| == |b| && forall j | 0 <= j < |a| :: Head(anyNumber, a[j], v) == Head(anyNumber, b[j], v)
    ensures FirstHead(anyNumber, a, i, v) == FirstHead(anyNumber, b, i, v)
  {}

  lemma SameChoice(anyNumber: bool, a: seq<NixType>, b: seq<NixType>, v: Json)
    requires |a| == |b| && forall j | 0 <= j < |a| :: Head(anyNumber, a[j], v) == Head(anyNumber, b[j], v)
    requires forall j | 0 <= j < |a| :: Admits(anyNumber, a[j], v) == Admits(anyNumber, b[j], v)
    ensures Admits(anyNumber, OneOf(a), v) == Admits(anyNumber, OneOf(b), v)
  {
    forall i | 0 <= i < |a| ensures FirstHead(anyNumber, a, i, v) == FirstHead(anyNumber, b, i, v) {
      SameFirstHead(anyNumber, a, b, i, v);
    }
  }

  lemma {:induction false} OneOfAdmitsTheSame(e: Emitter, anyNumber: bool, ty: NixType, v: Json)
    requires ty.OneOf?
    ensures Admits(anyNumber, AsRead(e, ty), v) == Admits(anyNumber, ty, v)
    decreases ty, 0
  {
    var read := AsRead(e, ty).types;
    forall i | 0 <= i < |ty.types|
      ensures Head(anyNumber, read[i], v) == Head(anyNumber, ty.types[i], v)
      ensures Admits(anyNumber, read[i], v) == Admits(anyNumber, ty.types[i], v)
    {
      var t := ty.types[i];
      ReadTypeHeadIsTheSame(e, anyNumber, t, v);
      ReadTypeAdmitsTheSame(e, anyNumber, t, v);
      assert read[i] == AsRead(e, t);
    }
    SameChoice(anyNumber, read, ty.types, v);
  }

  lemma {:induction false} SubmoduleAdmitsTheSame(e: Emitter, anyNumber: bool, ty: NixType, v: Json)
    requires ty.Submodule?
    ensures Admits(anyNumber, AsRead(e, ty), v) == Admits(anyNumber, ty, v)
    decreases ty, 0
  {
    if v.JObject? {
      var options := ty.options;
      var read := AsRead(e, ty).options;
      forall k | k in options && k in v.fields
        ensures Admits(anyNumber, read[k].ty, v.fields[k]) == Admits(anyNumber, options[k].ty, v.fields[k])
      {
        var option := options[k];
        ReadTypeAdmitsTheSame(e, anyNumber, option.ty, v.fields[k]);
        assert read[k] == OptionAsRead(e, option);
      }
      var rest := JObject(map k | k in v.fields && k !in options :: v.fields[k]);
      assert rest == JObject(map k | k in v.fields && k !in read :: v.fields[k]);
      if ty.freeform.Some? {
        ReadTypeAdmitsTheSame(e, anyNumber, ty.freeform.value, rest);
      }
    }
  }
}
