/**
  The printer as cli/src/codegen/nix_emitter.rs runs it: each piece is rendered
  by itself and the pieces are put together in buffers.

  The text of a piece is the same whatever stands behind it, so the buffers end
  up with the text `NixEmitter` gives from left to right; each method is proved
  to return exactly that text.
 */
module NixDocument {
  import opened Prelude
  import opened NixTypes
  import opened Strings
  import opened NixStrings
  import opened NixEmitter
  import Ordering

  /// What follows a piece never changes it

  lemma QuotedAppends(s: string, t: string)
    ensures QuotedOnto(s, t) == QuotedOnto(s, "") + t
  {
    Regroup("\"", Escape(s) + "\"", t);
    Regroup(Escape(s), "\"", t);
    assert "\"" + "" == "\"";
  }

  lemma {:induction false} StringsAppend(values: seq<string>, t: string)
    ensures StringsOnto(values, t) == StringsOnto(values, "") + t
    decreases |values|
  {
    if values == [] {
      assert "" + t == t;
    } else if |values| == 1 {
      QuotedAppends(values[0], t);
    } else {
      var rest := StringsOnto(values[1..], "");
      StringsAppend(values[1..], t);
      QuotedAppends(values[0], " " + rest);
      QuotedAppends(values[0], " " + (rest + t));
      Regroup(" ", rest, t);
      Regroup(QuotedOnto(values[0], ""), " " + rest, t);
    }
  }

  lemma {:induction false} TypesAppend(e: Emitter, types: seq<NixType>, t: string)
    ensures TypesOnto(e, types, t) == TypesOnto(e, types, "") + t
    decreases types, 2, 0
  {
    if types == [] {
      assert "" + t == t;
    } else if |types| == 1 {
      TypeAppends(e, types[0], t);
    } else {
      var rest := TypesOnto(e, types[1..], "");
      TypesAppend(e, types[1..], t);
      TypeAppends(e, types[0], " " + rest);
      TypeAppends(e, types[0], " " + (rest + t));
      Regroup(" ", rest, t);
      Regroup(Emit(e, types[0]), " " + rest, t);
    }
  }

  /** A piece between two literals. */
  lemma Wrapped(head: string, x: string, tail: string, t: string)
    ensures head + (x + (tail + t)) == (head + (x + tail)) + t
  {
    Regroup(x, tail, t);
    Regroup(head, x + tail, t);
  }

  lemma {:induction false} WrappedAppends(e: Emitter, head: string, inner: NixType, tail: string, t: string)
    ensures head + TypeOnto(e, inner, tail + t) == (head + TypeOnto(e, inner, tail)) + t
    decreases inner, 2, 0
  {
    TypeAppends(e, inner, tail + t);
    TypeAppends(e, inner, tail);
    Wrapped(head, Emit(e, inner), tail, t);
  }

  lemma {:induction false} EitherAppends(e: Emitter, left: NixType, right: NixType, t: string)
    ensures TypeOnto(e, Either(left, right), t) == Emit(e, Either(left, right)) + t
    decreases Either(left, right), 0, 0
  {
    var u := " " + TypeOnto(e, right, ")");
    WrappedAppends(e, " ", right, ")", t);
    assert ")" + "" == ")";
    EitherLeft(e, left, u, t);
  }

  lemma {:induction false} EitherLeft(e: Emitter, left: NixType, u: string, t: string)
    ensures "(types.either " + TypeOnto(e, left, u + t) == ("(types.either " + TypeOnto(e, left, u)) + t
    decreases left, 3, 0
  {
    WrappedAppends(e, "(types.either ", left, u, t);
  }

  lemma DefaultAppends(default: Option<string>, t: string)
    ensures DefaultOnto(default, t) == DefaultOnto(default, "") + t
  {
    if default.Some? {
      assert ";" + "" == ";";
      Wrapped("\n      default = ", default.value, ";", t);
    } else {
      assert "" + t == t;
    }
  }

  lemma DescriptionAppends(e: Emitter, description: Option<string>, t: string)
    ensures DescriptionOnto(e, description, t) == DescriptionOnto(e, description, "") + t
  {
    if !e.includeDescriptions || description.None? {
      assert "" + t == t;
    } else if '\n' in description.value {
      assert "\n      '';" + "" == "\n      '';";
      Wrapped("\n      description = ''\n        ", e.indented(description.value), "\n      '';", t);
    } else {
      assert ";" + "" == ";";
      QuotedAppends(description.value, ";" + t);
      QuotedAppends(description.value, ";");
      Wrapped("\n      description = ", QuotedOnto(description.value, ""), ";", t);
    }
  }

  lemma AttrNameAppends(alnum: char -> bool, name: string, t: string)
    ensures AttrNameOnto(alnum, name, t) == AttrNameOnto(alnum, name, "") + t
  {
    QuotedAppends(name, t);
    assert name + "" == name;
  }

  /** What an option says behind its type. */
  function Trailer(e: Emitter, option: NixOption, t: string): string {
    DefaultOnto(option.default, DescriptionOnto(e, option.description, "\n    };" + t))
  }

  lemma TrailerAppends(e: Emitter, option: NixOption, t: string)
    ensures Trailer(e, option, t) == Trailer(e, option, "") + t
  {
    var d := DescriptionOnto(e, option.description, "");
    var end := "\n    };";
    assert end + "" == end;
    DescriptionAppends(e, option.description, end + t);
    DescriptionAppends(e, option.description, end);
    Regroup(d, end, t);
    DefaultAppends(option.default, (d + end) + t);
    DefaultAppends(option.default, d + end);
    Regroup(DefaultOnto(option.default, ""), d + end, t);
  }

  lemma {:induction false} OptionAppends(e: Emitter, name: string, option: NixOption, t: string)
    ensures OptionOnto(e, name, option, t) == OptionOnto(e, name, option, "") + t
    decreases option.ty, 2, 0
  {
    var head := " = mkOption {\n      type = ";
    var ty := Emit(e, option.ty);
    var u := ";" + Trailer(e, option, "");
    TrailerAppends(e, option, t);
    Regroup(";", Trailer(e, option, ""), t);
    TypeAppends(e, option.ty, u + t);
    TypeAppends(e, option.ty, u);
    Wrapped(head, ty, u, t);
    AttrNameAppends(e.alnum, name, (head + (ty + u)) + t);
    AttrNameAppends(e.alnum, name, head + (ty + u));
    Regroup(AttrNameOnto(e.alnum, name, ""), head + (ty + u), t);
  }

  lemma {:induction false} OptionsAppend(e: Emitter, ty: NixType, names: seq<string>, t: string)
    requires ty.Submodule? && forall k | k in names :: k in ty.options
    ensures OptionsOnto(e, ty, names, t) == OptionsOnto(e, ty, names, "") + t
    decreases ty, 0, |names|
  {
    if names == [] {
      assert "" + t == t;
    } else {
      var name, option := names[0], ty.options[names[0]];
      var rest := OptionsOnto(e, ty, names[1..], "");
      OptionsAppend(e, ty, names[1..], t);
      Regroup("\n", rest, t);
      OptionAppends(e, name, option, ("\n" + rest) + t);
      OptionAppends(e, name, option, "\n" + rest);
      Wrapped("    ", OptionOnto(e, name, option, ""), "\n" + rest, t);
    }
  }

  lemma {:induction false} FreeformAppends(e: Emitter, ty: NixType, t: string)
    requires ty.Submodule?
    ensures FreeformOnto(e, ty, t) == FreeformOnto(e, ty, "") + t
    decreases ty, 0, 0
  {
    if ty.freeform.None? {
      assert "" + t == t;
    } else {
      var f := ty.freeform.value;
      assert ";" + "" == ";";
      WrappedAppends(e, "\n  freeformType = ", f, ";", t);
    }
  }

  /** What stands between the head of a submodule and the text behind it. */
  function BodyOnto(e: Emitter, ty: NixType, names: seq<string>, t: string): string
    requires ty.Submodule? && forall k | k in names :: k in ty.options
  {
    OptionsOnto(e, ty, names, "  };" + FreeformOnto(e, ty, "\n})" + t))
  }

  lemma SubmoduleText(e: Emitter, ty: NixType, names: seq<string>, t: string)
    requires ty.Submodule? && names == Ordering.Keys(ty.options.Keys)
    ensures TypeOnto(e, ty, t) == "(mkTypedSubmodule {\n  options = {\n" + BodyOnto(e, ty, names, t)
  {}

  lemma {:induction false} BodyAppends(e: Emitter, ty: NixType, names: seq<string>, t: string)
    requires ty.Submodule? && forall k | k in names :: k in ty.options
    ensures BodyOnto(e, ty, names, t) == BodyOnto(e, ty, names, "") + t
    decreases ty, 0, |names| + 1
  {
    var f, end := FreeformOnto(e, ty, ""), "\n})";
    var u := "  };" + (f + end);
    assert end + "" == end;
    FreeformAppends(e, ty, end + t);
    FreeformAppends(e, ty, end);
    Wrapped("  };", f, end, t);
    OptionsAppend(e, ty, names, u + t);
    OptionsAppend(e, ty, names, u);
    Regroup(OptionsOnto(e, ty, names, ""), u, t);
  }

  lemma {:induction false} SubmoduleAppends(e: Emitter, ty: NixType, t: string)
    requires ty.Submodule?
    ensures TypeOnto(e, ty, t) == Emit(e, ty) + t
    decreases ty, 0, |ty.options| + 2
  {
    var names := Ordering.Keys(ty.options.Keys);
    SubmoduleText(e, ty, names, t);
    SubmoduleText(e, ty, names, "");
    BodyAppends(e, ty, names, t);
    Regroup("(mkTypedSubmodule {\n  options = {\n", BodyOnto(e, ty, names, ""), t);
  }

  lemma {:induction false} ListAppends(e: Emitter, ty: NixType, t: string)
    requires ty.Enum? || ty.OneOf?
    ensures TypeOnto(e, ty, t) == Emit(e, ty) + t
    decreases ty, 0, 0
  {
    var end := " ])";
    assert end + "" == end;
    if ty.Enum? {
      StringsAppend(ty.values, end + t);
      StringsAppend(ty.values, end);
      Wrapped("(types.enum [ ", StringsOnto(ty.values, ""), end, t);
    } else {
      TypesAppend(e, ty.types, end + t);
      TypesAppend(e, ty.types, end);
      Wrapped("(types.oneOf [ ", TypesOnto(e, ty.types, ""), end, t);
    }
  }

  /** The text of a type is the same wherever it stands. */
  lemma {:induction false} TypeAppends(e: Emitter, ty: NixType, t: string)
    ensures TypeOnto(e, ty, t) == Emit(e, ty) + t
    decreases ty, 1, 0
  {
    assert ")" + "" == ")";
    match ty
    case NullOr(inner) => WrappedAppends(e, "(types.nullOr ", inner, ")", t);
    case ListOf(inner) => WrappedAppends(e, "(types.listOf ", inner, ")", t);
    case AttrsOf(inner) => WrappedAppends(e, "(types.attrsOf ", inner, ")", t);
    case Either(left, right) => EitherAppends(e, left, right, t);
    case Enum(_) => ListAppends(e, ty, t);
    case OneOf(_) => ListAppends(e, ty, t);
    case Submodule(_, _) => SubmoduleAppends(e, ty, t);
    case _ => WordAppends(e, ty, t);
  }

  lemma WordAppends(e: Emitter, ty: NixType, t: string)
    requires !ty.NullOr? && !ty.ListOf? && !ty.AttrsOf? && !ty.Either? && !ty.Enum? && !ty.OneOf? && !ty.Submodule?
    ensures TypeOnto(e, ty, t) == Emit(e, ty) + t
  {
    Regroup(WordText(ty), "", t);
    assert "" + t == t;
  }

  function WordText(ty: NixType): string {
    match ty
    case Str => "types.str"
    case Int => "types.int"
    case Float => "types.float"
    case Bool => "types.bool"
    case Anything => "types.anything"
    case Raw => "types.raw"
    case Package => "types.package"
    case Path => "types.path"
    case _ => "types.attrs"
  }

  /// The printer

  lemma WrappedIs(e: Emitter, head: string, inner: NixType, tail: string)
    ensures head + Emit(e, inner) + tail == head + TypeOnto(e, inner, tail)
  {
    TypeAppends(e, inner, tail);
    Regroup(head, Emit(e, inner), tail);
  }

  method EmitType(e: Emitter, ty: NixType) returns (doc: string)
    ensures doc == Emit(e, ty)
    decreases ty, 1
  {
    match ty
    case NullOr(inner) => doc := EmitWrapped(e, "(types.nullOr ", inner);
    case ListOf(inner) => doc := EmitWrapped(e, "(types.listOf ", inner);
    case AttrsOf(inner) => doc := EmitWrapped(e, "(types.attrsOf ", inner);
    case Enum(values) =>
      doc := "(types.enum [ " + StringsOnto(values, "") + " ])";
      EnumIs(values);
    case Either(left, right) =>
      var leftDoc := EmitType(e, left);
      var rightDoc := EmitType(e, right);
      doc := "(types.either " + leftDoc + " " + rightDoc + ")";
      EitherIs(e, left, right);
    case OneOf(types) =>
      var list := EmitList(e, types);
      doc := "(types.oneOf [ " + list + " ])";
      OneOfIs(e, types);
    case Submodule(_, _) => doc := EmitSubmodule(e, ty);
    case _ =>
      doc := WordText(ty);
      assert WordText(ty) + "" == WordText(ty);
  }

  lemma EnumIs(values: seq<string>)
    ensures "(types.enum [ " + StringsOnto(values, "") + " ])" == "(types.enum [ " + StringsOnto(values, " ])" + "")
  {
    assert " ])" + "" == " ])";
    StringsAppend(values, " ])");
    Regroup("(types.enum [ ", StringsOnto(values, ""), " ])");
  }

  lemma Regroup5(h: string, l: string, c: string, r: string, end: string)
    ensures h + l + c + r + end == h + (l + (c + (r + end)))
  {}

  lemma EitherIs(e: Emitter, left: NixType, right: NixType)
    ensures "(types.either " + Emit(e, left) + " " + Emit(e, right) + ")" == Emit(e, Either(left, right))
  {
    var l, r := Emit(e, left), Emit(e, right);
    assert ")" + "" == ")";
    TypeAppends(e, right, ")");
    TypeAppends(e, left, " " + (r + ")"));
    Regroup5("(types.either ", l, " ", r, ")");
  }

  lemma OneOfIs(e: Emitter, types: seq<NixType>)
    ensures "(types.oneOf [ " + TypesOnto(e, types, "") + " ])" == Emit(e, OneOf(types))
  {
    assert " ])" + "" == " ])";
    TypesAppend(e, types, " ])");
    Regroup("(types.oneOf [ ", TypesOnto(e, types, ""), " ])");
  }

  method EmitWrapped(e: Emitter, head: string, inner: NixType) returns (doc: string)
    ensures doc == head + TypeOnto(e, inner, ")" + "")
    decreases inner, 2
  {
    var innerDoc := EmitType(e, inner);
    doc := head + innerDoc + ")";
    assert ")" + "" == ")";
    WrappedIs(e, head, inner, ")");
  }

  /** The elements with a space between any two. */
  method EmitList(e: Emitter, types: seq<NixType>) returns (doc: string)
    ensures doc == TypesOnto(e, types, "")
    decreases types, 2
  {
    doc := "";
    for i := 0 to |types|
      invariant i < |types| ==> doc + TypesOnto(e, types[i..], "") == TypesOnto(e, types, "")
      invariant i == |types| ==> doc == TypesOnto(e, types, "")
    {
      var element := EmitType(e, types[i]);
      ListStep(e, types, i, doc);
      doc := doc + element + (if i + 1 < |types| then " " else "");
    }
  }

  lemma ListStep(e: Emitter, types: seq<NixType>, i: nat, doc: string)
    requires i < |types|
    ensures i + 1 < |types| ==>
              doc + Emit(e, types[i]) + " " + TypesOnto(e, types[i + 1..], "") == doc + TypesOnto(e, types[i..], "")
    ensures i + 1 == |types| ==> doc + Emit(e, types[i]) + "" == doc + TypesOnto(e, types[i..], "")
  {
    var rest := types[i..];
    assert rest[0] == types[i] && rest[1..] == types[i + 1..];
    var element, after := Emit(e, types[i]), TypesOnto(e, types[i + 1..], "");
    TypeAppends(e, types[i], " " + after);
    assert doc + element + " " + after == doc + (element + (" " + after));
    assert doc + element + "" == doc + element;
  }

  method EmitSubmodule(e: Emitter, ty: NixType) returns (doc: string)
    requires ty.Submodule?
    ensures doc == Emit(e, ty)
    decreases ty, 0
  {
    var names := Ordering.Keys(ty.options.Keys);
    var options := EmitOptions(e, ty, names);
    doc := "(mkTypedSubmodule {\n  options = {\n" + options + "  };";
    ghost var head := doc;
    if ty.freeform.Some? {
      var freeform := EmitType(e, ty.freeform.value);
      doc := doc + "\n  freeformType = " + freeform + ";";
    }
    doc := doc + "\n})";
    SubmoduleIs(e, ty, names, head, doc);
  }

  /** The options in the order given, each on lines of its own. */
  method EmitOptions(e: Emitter, ty: NixType, names: seq<string>) returns (doc: string)
    requires ty.Submodule? && forall k | k in names :: k in ty.options
    ensures doc == OptionsOnto(e, ty, names, "")
    decreases ty, 0, 0
  {
    doc := "";
    for i := 0 to |names|
      invariant doc + OptionsOnto(e, ty, names[i..], "") == OptionsOnto(e, ty, names, "")
    {
      var option := EmitOption(e, names[i], ty.options[names[i]]);
      OptionsStep(e, ty, names[i..], doc);
      assert names[i..][1..] == names[i + 1..];
      doc := doc + "    " + option + "\n";
    }
  }

  lemma OptionsStep(e: Emitter, ty: NixType, names: seq<string>, doc: string)
    requires ty.Submodule? && names != [] && forall k | k in names :: k in ty.options
    ensures doc + "    " + OptionOnto(e, names[0], ty.options[names[0]], "") + "\n" + OptionsOnto(e, ty, names[1..], "")
            == doc + OptionsOnto(e, ty, names, "")
  {
    var option, u := OptionOnto(e, names[0], ty.options[names[0]], ""), OptionsOnto(e, ty, names[1..], "");
    OptionAppends(e, names[0], ty.options[names[0]], "\n" + u);
    Regroup5(doc, "    ", option, "\n", u);
  }

  lemma FreeformIs(e: Emitter, ty: NixType, doc: string, end: string)
    requires ty.Submodule?
    ensures ty.freeform.Some? ==>
              doc + "\n  freeformType = " + Emit(e, ty.freeform.value) + ";" + end == doc + FreeformOnto(e, ty, end)
    ensures ty.freeform.None? ==> doc + end == doc + FreeformOnto(e, ty, end)
  {
    if ty.freeform.Some? {
      TypeAppends(e, ty.freeform.value, ";" + end);
      Regroup5(doc, "\n  freeformType = ", Emit(e, ty.freeform.value), ";", end);
    }
  }

  lemma SubmoduleIs(e: Emitter, ty: NixType, names: seq<string>, head: string, doc: string)
    requires ty.Submodule? && names == Ordering.Keys(ty.options.Keys)
    requires head == "(mkTypedSubmodule {\n  options = {\n" + OptionsOnto(e, ty, names, "") + "  };"
    requires ty.freeform.Some? ==> doc == head + "\n  freeformType = " + Emit(e, ty.freeform.value) + ";" + "\n})"
    requires ty.freeform.None? ==> doc == head + "\n})"
    ensures doc == Emit(e, ty)
  {
    FreeformIs(e, ty, head, "\n})");
    SubmoduleText(e, ty, names, "");
    BodyIs(e, ty, names, "(mkTypedSubmodule {\n  options = {\n");
  }

  lemma BodyIs(e: Emitter, ty: NixType, names: seq<string>, h: string)
    requires ty.Submodule? && forall k | k in names :: k in ty.options
    ensures h + OptionsOnto(e, ty, names, "") + "  };" + FreeformOnto(e, ty, "\n})") == h + BodyOnto(e, ty, names, "")
  {
    var f := FreeformOnto(e, ty, "\n})");
    assert "\n})" + "" == "\n})";
    OptionsAppend(e, ty, names, "  };" + f);
    Regroup3(h, OptionsOnto(e, ty, names, ""), "  };", f);
  }

  method EmitOption(e: Emitter, name: string, option: NixOption) returns (doc: string)
    ensures doc == OptionOnto(e, name, option, "")
    decreases option.ty, 2
  {
    var ty := EmitType(e, option.ty);
    doc := AttrNameOnto(e.alnum, name, "") + " = mkOption {\n      type = " + ty + ";";
    OptionIs(e, name, option, doc);
    if option.default.Some? {
      DefaultIs(option.default, doc);
      doc := doc + "\n      default = " + option.default.value + ";";
    } else {
      assert doc + "" == doc;
    }
    if e.includeDescriptions && option.description.Some? {
      DescriptionIs(e, option.description, doc);
      if '\n' in option.description.value {
        doc := doc + "\n      description = ''\n        " + e.indented(option.description.value) + "\n      '';";
      } else {
        doc := doc + "\n      description = " + QuotedOnto(option.description.value, "") + ";";
      }
    } else {
      assert doc + "" == doc;
    }
    doc := doc + "\n    };";
  }

  lemma OptionIs(e: Emitter, name: string, option: NixOption, head: string)
    requires head == AttrNameOnto(e.alnum, name, "") + " = mkOption {\n      type = " + Emit(e, option.ty) + ";"
    ensures head + DefaultOnto(option.default, "") + DescriptionOnto(e, option.description, "") + "\n    };"
            == OptionOnto(e, name, option, "")
  {
    var a, m, ty := AttrNameOnto(e.alnum, name, ""), " = mkOption {\n      type = ", Emit(e, option.ty);
    var d, x := DefaultOnto(option.default, ""), DescriptionOnto(e, option.description, "");
    var end := "\n    };";
    assert end + "" == end;
    DescriptionAppends(e, option.description, end);
    DefaultAppends(option.default, x + end);
    TypeAppends(e, option.ty, ";" + (d + (x + end)));
    AttrNameAppends(e.alnum, name, m + (ty + (";" + (d + (x + end)))));
    OptionRegroup(a, m, ty, ";", d, x, end);
  }

  lemma OptionRegroup(a: string, m: string, ty: string, c: string, d: string, x: string, end: string)
    ensures a + m + ty + c + d + x + end == a + (m + (ty + (c + (d + (x + end)))))
  {}

  lemma DefaultIs(default: Option<string>, doc: string)
    requires default.Some?
    ensures doc + "\n      default = " + default.value + ";" == doc + DefaultOnto(default, "")
  {
    assert ";" + "" == ";";
    Regroup3(doc, "\n      default = ", default.value, ";");
  }

  lemma Regroup3(a: string, b: string, c: string, d: string)
    ensures a + b + c + d == a + (b + (c + d))
  {}

  lemma DescriptionIs(e: Emitter, description: Option<string>, doc: string)
    requires e.includeDescriptions && description.Some?
    ensures '\n' in description.value ==>
              doc + "\n      description = ''\n        " + e.indented(description.value) + "\n      '';"
              == doc + DescriptionOnto(e, description, "")
    ensures '\n' !in description.value ==>
              doc + "\n      description = " + QuotedOnto(description.value, "") + ";"
              == doc + DescriptionOnto(e, description, "")
  {
    if '\n' in description.value {
      assert "\n      '';" + "" == "\n      '';";
      Regroup3(doc, "\n      description = ''\n        ", e.indented(description.value), "\n      '';");
    } else {
      assert ";" + "" == ";";
      QuotedAppends(description.value, ";");
      Regroup3(doc, "\n      description = ", QuotedOnto(description.value, ""), ";");
    }
  }
}