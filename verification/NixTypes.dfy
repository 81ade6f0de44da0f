/**
  The Nix option types of cli/src/codegen/types.rs, and the values each admits
  once emitted. A Nix value read from JSON is that JSON value.
 */
module NixTypes {
  import opened Prelude
  import opened Json

  datatype NixType =
    | Str
    | Int
    | Float
    | Bool
    | NullOr(inner: NixType)
    | ListOf(inner: NixType)
    | AttrsOf(inner: NixType)
    | Enum(values: seq<string>)
    | Either(left: NixType, right: NixType)
    | OneOf(types: seq<NixType>)
    | Submodule(options: map<string, NixOption>, freeform: Option<NixType>)
    | Ref(name: string)
    | Anything
    | Attrs
    | Raw
    | Package
    | Path

  datatype NixOption = NixOption(ty: NixType, default: Option<string>, description: Option<string>)

  function Nullable(ty: NixType): NixType {
    if ty.NullOr? then ty else NullOr(ty)
  }

  /**
    What the type checks before it looks inside the value. Attributes and lists
    check no more than that; a submodule also takes a path, a string that starts
    with a slash, as a module to import. `types.float` rejects integers;
    `anyNumber` is the reading under which it takes them.
   */
  predicate Head(anyNumber: bool, ty: NixType, v: Json)
    decreases ty
  {
    match ty
    case Str => v.JString?
    case Int => v.JInt?
    case Float => v.JFloat? || (anyNumber && v.JInt?)
    case Bool => v.JBool?
    case NullOr(inner) => v.JNull? || Head(anyNumber, inner, v)
    case ListOf(_) => v.JArray?
    case AttrsOf(_) => v.JObject?
    case Enum(values) => v.JString? && v.s in values
    case Either(left, right) => Head(anyNumber, left, v) || Head(anyNumber, right, v)
    case OneOf(types) => exists i | 0 <= i < |types| :: Head(anyNumber, types[i], v)
    case Submodule(_, _) => v.JObject? || IsPath(v)
    case Ref(_) => v.JObject?
    case Anything => true
    case Attrs => v.JObject?
    case Raw => true
    case Package => false
    case Path => IsPath(v)
  }

  predicate IsPath(v: Json) {
    v.JString? && v.s != [] && v.s[0] == '/'
  }

  /** The first alternative whose head the value passes: the one it is merged with. */
  predicate FirstHead(anyNumber: bool, types: seq<NixType>, i: nat, v: Json) {
    && i < |types| && Head(anyNumber, types[i], v)
    && forall j | 0 <= j < i :: !Head(anyNumber, types[j], v)
  }

  /**
    Whether the emitted type admits the value. Alternatives commit to the first
    whose head the value passes. A submodule without a freeform type is emitted
    through `mkTypedSubmodule`, whose default is `types.attrs`. `Ref` is emitted
    as `types.attrs`.
   */
  predicate Admits(anyNumber: bool, ty: NixType, v: Json)
    decreases ty
  {
    match ty
    case NullOr(inner) => v.JNull? || Admits(anyNumber, inner, v)
    case ListOf(inner) => v.JArray? && forall i | 0 <= i < |v.items| :: Admits(anyNumber, inner, v.items[i])
    case AttrsOf(inner) => v.JObject? && forall k | k in v.fields :: Admits(anyNumber, inner, v.fields[k])
    case Either(left, right) =>
      if Head(anyNumber, left, v) then Admits(anyNumber, left, v) else Admits(anyNumber, right, v)
    case OneOf(types) =>
      exists i | 0 <= i < |types| :: FirstHead(anyNumber, types, i, v) && Admits(anyNumber, types[i], v)
    case Submodule(options, freeform) =>
      && v.JObject?
      && (forall k | k in options ::
            if k in v.fields then Admits(anyNumber, options[k].ty, v.fields[k]) else options[k].default.Some?)
      && (freeform.Some? ==>
            Admits(anyNumber, freeform.value, JObject(map k | k in v.fields && k !in options :: v.fields[k])))
    case _ => Head(anyNumber, ty, v)
  }

  lemma {:induction false} AdmittedPassesTheHead(anyNumber: bool, ty: NixType, v: Json)
    requires Admits(anyNumber, ty, v)
    ensures Head(anyNumber, ty, v)
    decreases ty
  {
    match ty
    case NullOr(inner) =>
      if !v.JNull? {
        AdmittedPassesTheHead(anyNumber, inner, v);
      }
    case Either(left, right) =>
      if !Head(anyNumber, left, v) {
        AdmittedPassesTheHead(anyNumber, right, v);
      }
    case _ =>
  }

  /// Alternatives the heads tell apart

  datatype Kind = KNull | KBool | KInt | KFloat | KString | KArray | KObject

  function KindOf(v: Json): Kind {
    match v
    case JNull => KNull
    case JBool(_) => KBool
    case JInt(_) => KInt
    case JFloat(_) => KFloat
    case JString(_) => KString
    case JArray(_) => KArray
    case JObject(_) => KObject
  }

  /** Values of the kind may be admitted. */
  predicate Takes(anyNumber: bool, ty: NixType, k: Kind)
    decreases ty
  {
    match ty
    case Str => k == KString
    case Int => k == KInt
    case Float => k == KFloat || (anyNumber && k == KInt)
    case Bool => k == KBool
    case NullOr(inner) => k == KNull || Takes(anyNumber, inner, k)
    case ListOf(_) => k == KArray
    case AttrsOf(_) => k == KObject
    case Enum(_) => k == KString
    case Either(left, right) => Takes(anyNumber, left, k) || Takes(anyNumber, right, k)
    case OneOf(types) => exists i | 0 <= i < |types| :: Takes(anyNumber, types[i], k)
    case Submodule(_, _) => k == KObject
    case Ref(_) => k == KObject
    case Anything => true
    case Attrs => k == KObject
    case Raw => true
    case Package => false
    case Path => k == KString
  }

  /** Values of the kind may pass the head and still be turned away inside. */
  predicate Baits(ty: NixType, k: Kind)
    decreases ty
  {
    match ty
    case NullOr(inner) => Baits(inner, k)
    case ListOf(inner) => k == KArray && inner != Anything
    case AttrsOf(inner) => k == KObject && inner != Anything
    case Either(left, right) => Baits(left, k) || Baits(right, k)
    case OneOf(types) => exists i | 0 <= i < |types| :: Baits(types[i], k)
    case Submodule(_, _) => k == KObject || k == KString
    case _ => false
  }

  /** No value the second admits is caught by the first and turned away there. */
  predicate Apart(anyNumber: bool, first: NixType, second: NixType) {
    forall k: Kind | Baits(first, k) :: !Takes(anyNumber, second, k)
  }

  /** Everywhere inside the type, an alternative is apart from those after it. */
  predicate Distinguishable(anyNumber: bool, ty: NixType)
    decreases ty
  {
    match ty
    case NullOr(inner) => Distinguishable(anyNumber, inner)
    case ListOf(inner) => Distinguishable(anyNumber, inner)
    case AttrsOf(inner) => Distinguishable(anyNumber, inner)
    case Either(left, right) =>
      Distinguishable(anyNumber, left) && Distinguishable(anyNumber, right) && Apart(anyNumber, left, right)
    case OneOf(types) =>
      && (forall i | 0 <= i < |types| :: Distinguishable(anyNumber, types[i]))
      && (forall i, j | 0 <= i < j < |types| :: Apart(anyNumber, types[i], types[j]))
    case Submodule(options, freeform) =>
      && (forall k | k in options :: Distinguishable(anyNumber, options[k].ty))
      && (freeform.Some? ==> Distinguishable(anyNumber, freeform.value))
    case _ => true
  }

  lemma {:induction false} AdmittedIsTaken(anyNumber: bool, ty: NixType, v: Json)
    requires Admits(anyNumber, ty, v)
    ensures Takes(anyNumber, ty, KindOf(v))
    decreases ty
  {
    match ty
    case NullOr(inner) =>
      if !v.JNull? {
        AdmittedIsTaken(anyNumber, inner, v);
      }
    case Either(left, right) =>
      AdmittedIsTaken(anyNumber, if Head(anyNumber, left, v) then left else right, v);
    case OneOf(types) =>
      var i :| 0 <= i < |types| && FirstHead(anyNumber, types, i, v) && Admits(anyNumber, types[i], v);
      AdmittedIsTaken(anyNumber, types[i], v);
    case _ =>
  }

  lemma FirstHeadExists(anyNumber: bool, types: seq<NixType>, n: nat, v: Json) returns (i: nat)
    requires n < |types| && Head(anyNumber, types[n], v)
    ensures i <= n && FirstHead(anyNumber, types, i, v)
  {
    i := 0;
    while !Head(anyNumber, types[i], v)
      invariant i <= n
      invariant forall j | 0 <= j < i :: !Head(anyNumber, types[j], v)
      decreases n - i
    {
      i := i + 1;
    }
  }

  lemma CommittedTo(anyNumber: bool, types: seq<NixType>, v: Json) returns (i: nat)
    requires Head(anyNumber, OneOf(types), v) && !Admits(anyNumber, OneOf(types), v)
    ensures FirstHead(anyNumber, types, i, v) && !Admits(anyNumber, types[i], v)
  {
    var n :| 0 <= n < |types| && Head(anyNumber, types[n], v);
    i := FirstHeadExists(anyNumber, types, n, v);
  }

  lemma CaughtInsideIsBaited(anyNumber: bool, ty: NixType, v: Json)
    requires !ty.NullOr? && !ty.Either? && !ty.OneOf?
    requires Head(anyNumber, ty, v) && !Admits(anyNumber, ty, v)
    ensures Baits(ty, KindOf(v))
  {
    if ty == ListOf(Anything) || ty == AttrsOf(Anything) {
      assert false;
    }
  }

  lemma {:induction false} CaughtIsBaited(anyNumber: bool, ty: NixType, v: Json)
    requires Head(anyNumber, ty, v) && !Admits(anyNumber, ty, v)
    ensures Baits(ty, KindOf(v))
    decreases ty
  {
    match ty
    case NullOr(inner) => CaughtIsBaited(anyNumber, inner, v);
    case Either(left, right) =>
      CaughtIsBaited(anyNumber, if Head(anyNumber, left, v) then left else right, v);
    case OneOf(types) =>
      var i := CommittedTo(anyNumber, types, v);
      CaughtIsBaited(anyNumber, types[i], v);
    case _ => CaughtInsideIsBaited(anyNumber, ty, v);
  }

  /** An alternative apart from those before it loses nothing to them. */
  lemma AlternativeIsReached(anyNumber: bool, types: seq<NixType>, i: nat, v: Json)
    requires i < |types| && Admits(anyNumber, types[i], v)
    requires forall j | 0 <= j < i :: Apart(anyNumber, types[j], types[i])
    ensures exists j :: 0 <= j < |types| && FirstHead(anyNumber, types, j, v) && Admits(anyNumber, types[j], v)
  {
    AdmittedPassesTheHead(anyNumber, types[i], v);
    var j := FirstHeadExists(anyNumber, types, i, v);
    if j < i {
      AdmittedIsTaken(anyNumber, types[i], v);
      assert Apart(anyNumber, types[j], types[i]);
      assert !Baits(types[j], KindOf(v));
      if !Admits(anyNumber, types[j], v) {
        CaughtIsBaited(anyNumber, types[j], v);
      }
    }
  }

  /** No reference is left anywhere inside the type. */
  predicate NoRef(ty: NixType)
    decreases ty
  {
    match ty
    case NullOr(inner) => NoRef(inner)
    case ListOf(inner) => NoRef(inner)
    case AttrsOf(inner) => NoRef(inner)
    case Either(left, right) => NoRef(left) && NoRef(right)
    case OneOf(types) => forall i | 0 <= i < |types| :: NoRef(types[i])
    case Submodule(options, freeform) =>
      && (forall k | k in options :: NoRef(options[k].ty))
      && (freeform.Some? ==> NoRef(freeform.value))
    case Ref(_) => false
    case _ => true
  }
}
