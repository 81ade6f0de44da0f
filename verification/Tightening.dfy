/** What the tightening pass promises. */
module Tightening {
  import opened Prelude
  import opened Json
  import opened JsonSchema
  import opened BuildSchemas

  // Its schemas accept nothing the originals turn away, it settles after one
  // pass, and a closed node rejects a key it does not declare.

  /// One pass settles

  lemma {:induction false} Idempotent(node: Json, close: bool)
    ensures Strictify(Strictify(node, close), close) == Strictify(node, close)
    decreases node, 2
  {
    match node
    case JArray(items) =>
      forall i | 0 <= i < |items|
        ensures Strictify(Strictify(items[i], close), close) == Strictify(items[i], close)
      {
        Idempotent(items[i], close);
      }
      var once := Strictify(node, close);
      assert forall i | 0 <= i < |items| :: once.items[i] == Strictify(items[i], close);
    case JObject(fields) =>
      forall key | key in fields ensures StrictField(key, StrictField(key, fields[key])) == StrictField(key, fields[key]) {
        FieldIdempotent(key, fields[key]);
      }
      FlagsKept(node, close);
      SealedTwice(node, close);
    case _ =>
  }

  function EachField(fields: map<string, Json>): map<string, Json> {
    map key | key in fields :: StrictField(key, fields[key])
  }

  lemma SealedFields(node: Json, close: bool)
    requires node.JObject?
    ensures Strictify(node, close) == JObject(Sealed(node, close, EachField(node.fields)))
  {
    assert EachField(node.fields) == map key | key in node.fields :: StrictField(key, node.fields[key]);
  }

  lemma BooleanFieldKept(key: string, value: Json, b: bool)
    requires key == PRESERVE || key == "additionalProperties"
    ensures StrictField(key, value) == JBool(b) <==> value == JBool(b)
  {}

  lemma FlagsKept(node: Json, close: bool)
    requires node.JObject?
    ensures Preserves(Strictify(node, close)) == Preserves(node)
    ensures Get(Strictify(node, close), "properties").Some? == Get(node, "properties").Some?
    ensures Get(Strictify(node, close), "additionalProperties").Some? <==>
            || Get(node, "additionalProperties").Some?
            || Preserves(node)
            || (close && Get(node, "properties").Some?)
  {
    SealedFields(node, close);
    assert |PRESERVE| != |"additionalProperties"| && |"properties"| != |"additionalProperties"|;
    if PRESERVE in node.fields {
      BooleanFieldKept(PRESERVE, node.fields[PRESERVE], true);
    }
  }

  /** Given that each field settles, so does the node with its seal. */
  lemma SealedTwice(node: Json, close: bool)
    requires node.JObject?
    requires forall key | key in node.fields ::
               StrictField(key, StrictField(key, node.fields[key])) == StrictField(key, node.fields[key])
    requires var once := Strictify(node, close);
             && Preserves(once) == Preserves(node)
             && Get(once, "properties").Some? == Get(node, "properties").Some?
             && (Get(once, "additionalProperties").Some? <==>
                 Get(node, "additionalProperties").Some? || Preserves(node) || (close && Get(node, "properties").Some?))
    ensures Strictify(Strictify(node, close), close) == Strictify(node, close)
  {
    var once := Strictify(node, close);
    SealedFields(node, close);
    SealedFields(once, close);
    BooleanFieldKept("additionalProperties", JBool(true), true);
    BooleanFieldKept("additionalProperties", JBool(false), false);
    var again := EachField(once.fields);
    forall key | key in once.fields ensures again[key] == once.fields[key] {
      assert key in node.fields || key == "additionalProperties";
    }
    assert again == once.fields;
  }

  lemma {:induction false} FieldIdempotent(key: string, value: Json)
    ensures StrictField(key, StrictField(key, value)) == StrictField(key, value)
    decreases value, 3
  {
    if IsCombinator(key) {
      Idempotent(value, false);
    } else if key == "properties" {
      if value.JObject? {
        forall name | name in value.fields
          ensures Strictify(Strictify(value.fields[name], true), true) == Strictify(value.fields[name], true)
        {
          Idempotent(value.fields[name], true);
        }
      }
    } else {
      Idempotent(value, true);
    }
  }

  /// Which schemas are only tightened

  /** Every name `$ref` resolves while `s` is evaluated is in `fixed`, before entering definitions. */
  predicate Mentions(fixed: set<string>, s: Json)
    decreases s, 2
  {
    && MentionsAsRef(fixed, s) && MentionsIn(fixed, s, "properties")
    && MentionsBelow(fixed, s, "additionalProperties") && MentionsBelow(fixed, s, "items") && MentionsBelow(fixed, s, "not")
    && MentionsInEach(fixed, s, "allOf") && MentionsInEach(fixed, s, "anyOf") && MentionsInEach(fixed, s, "oneOf")
  }

  predicate MentionsAsRef(fixed: set<string>, s: Json) {
    match GetString(s, "$ref")
    case Some(path) => RefName(path) in fixed
    case None => true
  }

  predicate MentionsBelow(fixed: set<string>, s: Json, key: string)
    decreases s, 1
  {
    match Get(s, key)
    case Some(sub) => Mentions(fixed, sub)
    case None => true
  }

  predicate MentionsIn(fixed: set<string>, s: Json, key: string)
    decreases s, 1
  {
    match GetObject(s, key)
    case Some(subs) => forall k | k in subs :: Mentions(fixed, subs[k])
    case None => true
  }

  predicate MentionsInEach(fixed: set<string>, s: Json, key: string)
    decreases s, 1
  {
    match GetArray(s, key)
    case Some(subs) => forall i | 0 <= i < |subs| :: Mentions(fixed, subs[i])
    case None => true
  }

  /** The branch reads the same after the pass, and so does everything it refers to. */
  predicate Frozen(fixed: set<string>, branch: Json) {
    Strictify(branch, false) == branch && Mentions(fixed, branch)
  }

  /** The pass makes no value of the enumeration into one that was not listed. */
  predicate EnumSurvives(s: Json) {
    match GetArray(s, "enum")
    case Some(values) => forall w | w in values :: Strictify(w, true) in values
    case None => true
  }

  /** A node that preserves unknown fields gives them no schema but `true`. */
  predicate PreservesPlainly(s: Json) {
    Preserves(s) && Get(s, "additionalProperties").Some? ==> Get(s, "additionalProperties").value == JBool(true)
  }

  predicate NegativesFrozen(fixed: set<string>, s: Json) {
    && (GetArray(s, "oneOf").Some? ==> forall b | b in GetArray(s, "oneOf").value :: Frozen(fixed, b))
    && (Get(s, "not").Some? ==> Frozen(fixed, Get(s, "not").value))
  }

  /**
    Negative positions must be frozen: a tightened schema under `not`, or beside
    its rivals in `oneOf`, can accept more. A node that preserves unknown fields
    must not also give them a schema, because the pass replaces it by `true`.
    Enumerations must survive, because the pass goes into their values as well.
    Each of the four is lost on some schema, in `Loosening`; that they are enough
    is proved here, not that they are needed by every schema.
   */
  predicate Tightenable(fixed: set<string>, s: Json)
    decreases s, 2
  {
    && EnumSurvives(s) && PreservesPlainly(s) && NegativesFrozen(fixed, s)
    && TightenableIn(fixed, s, "properties")
    && TightenableBelow(fixed, s, "additionalProperties") && TightenableBelow(fixed, s, "items")
    && TightenableEach(fixed, s, "allOf") && TightenableEach(fixed, s, "anyOf")
  }

  predicate TightenableBelow(fixed: set<string>, s: Json, key: string)
    decreases s, 1
  {
    match Get(s, key)
    case Some(sub) => Tightenable(fixed, sub)
    case None => true
  }

  predicate TightenableIn(fixed: set<string>, s: Json, key: string)
    decreases s, 1
  {
    match GetObject(s, key)
    case Some(subs) => forall k | k in subs :: Tightenable(fixed, subs[k])
    case None => true
  }

  predicate TightenableEach(fixed: set<string>, s: Json, key: string)
    decreases s, 1
  {
    match GetArray(s, key)
    case Some(subs) => forall i | 0 <= i < |subs| :: Tightenable(fixed, subs[i])
    case None => true
  }

  /** The fixed definitions survive the pass, and mention only each other. */
  predicate Fixed(defs: map<string, Json>, fixed: set<string>) {
    forall n | n in fixed && n in defs :: Strictify(defs[n], true) == defs[n] && Mentions(fixed, defs[n])
  }

  function StrictDefinitions(defs: map<string, Json>): map<string, Json> {
    map n | n in defs :: Strictify(defs[n], true)
  }

  ghost function StrictRegistry(reg: Registry): Registry {
    Registry(StrictDefinitions(reg.defs), reg.outside, reg.asserts)
  }

  /// A frozen schema means the same among the strict definitions

  lemma {:induction false} FrozenSame(reg: Registry, fixed: set<string>, s: Json, v: Json, fuel: nat)
    requires Fixed(reg.defs, fixed) && Mentions(fixed, s)
    ensures Eval(StrictRegistry(reg), s, v, fuel) == Eval(reg, s, v, fuel)
    decreases fuel, s, 2
  {
    if s.JObject? {
      FrozenRef(reg, fixed, s, v, fuel);
      FrozenProperties(reg, fixed, s, v, fuel);
      FrozenAdditional(reg, fixed, s, v, fuel);
      FrozenItems(reg, fixed, s, v, fuel);
      FrozenBranches(reg, fixed, s, v, fuel, "allOf");
      FrozenBranches(reg, fixed, s, v, fuel, "anyOf");
      FrozenBranches(reg, fixed, s, v, fuel, "oneOf");
      if Get(s, "not").Some? {
        FrozenSame(reg, fixed, Get(s, "not").value, v, fuel);
      }
      SameParts(reg, s, v, fuel);
    }
  }

  ghost predicate SameBranches(reg: Registry, s: Json, v: Json, fuel: nat, key: string) {
    var subs := GetArray(s, key);
    subs.Some? ==> forall i | 0 <= i < |subs.value| ::
        Eval(StrictRegistry(reg), subs.value[i], v, fuel) == Eval(reg, subs.value[i], v, fuel)
  }

  lemma SameParts(reg: Registry, s: Json, v: Json, fuel: nat)
    requires s.JObject?
    requires var strict := StrictRegistry(reg);
             && RefVerdict(strict, s, v, fuel) == RefVerdict(reg, s, v, fuel)
             && PropertiesVerdict(strict, s, v, fuel) == PropertiesVerdict(reg, s, v, fuel)
             && AdditionalVerdict(strict, s, v, fuel) == AdditionalVerdict(reg, s, v, fuel)
             && ItemsVerdict(strict, s, v, fuel) == ItemsVerdict(reg, s, v, fuel)
             && (Get(s, "not").Some? ==> Eval(strict, Get(s, "not").value, v, fuel) == Eval(reg, Get(s, "not").value, v, fuel))
    requires SameBranches(reg, s, v, fuel, "allOf") && SameBranches(reg, s, v, fuel, "anyOf")
    requires SameBranches(reg, s, v, fuel, "oneOf")
    ensures Eval(StrictRegistry(reg), s, v, fuel) == Eval(reg, s, v, fuel)
  {
    SameAllOf(reg, s, v, fuel);
    SameAnyOf(reg, s, v, fuel);
    SameOneOf(reg, s, v, fuel);
    SameNot(reg, s, v, fuel);
    SameVerdicts(reg, StrictRegistry(reg), s, v, fuel);
  }

  lemma SameNot(reg: Registry, s: Json, v: Json, fuel: nat)
    requires Get(s, "not").Some? ==>
               Eval(StrictRegistry(reg), Get(s, "not").value, v, fuel) == Eval(reg, Get(s, "not").value, v, fuel)
    ensures NotVerdict(StrictRegistry(reg), s, v, fuel) == NotVerdict(reg, s, v, fuel)
  {}

  lemma SameVerdicts(a: Registry, b: Registry, s: Json, v: Json, fuel: nat)
    requires s.JObject? && a.asserts == b.asserts
    requires RefVerdict(a, s, v, fuel) == RefVerdict(b, s, v, fuel)
    requires PropertiesVerdict(a, s, v, fuel) == PropertiesVerdict(b, s, v, fuel)
    requires AdditionalVerdict(a, s, v, fuel) == AdditionalVerdict(b, s, v, fuel)
    requires ItemsVerdict(a, s, v, fuel) == ItemsVerdict(b, s, v, fuel)
    requires AllOfVerdict(a, s, v, fuel) == AllOfVerdict(b, s, v, fuel)
    requires AnyOfVerdict(a, s, v, fuel) == AnyOfVerdict(b, s, v, fuel)
    requires OneOfVerdict(a, s, v, fuel) == OneOfVerdict(b, s, v, fuel)
    requires NotVerdict(a, s, v, fuel) == NotVerdict(b, s, v, fuel)
    ensures Eval(a, s, v, fuel) == Eval(b, s, v, fuel)
  {}

  lemma SameAllOf(reg: Registry, s: Json, v: Json, fuel: nat)
    requires SameBranches(reg, s, v, fuel, "allOf")
    ensures AllOfVerdict(StrictRegistry(reg), s, v, fuel) == AllOfVerdict(reg, s, v, fuel)
  {
    if GetArray(s, "allOf").Some? {
      var subs, strict := GetArray(s, "allOf").value, StrictRegistry(reg);
      assert (set i | 0 <= i < |subs| :: Eval(strict, subs[i], v, fuel))
          == (set i | 0 <= i < |subs| :: Eval(reg, subs[i], v, fuel));
    }
  }

  lemma SameAnyOf(reg: Registry, s: Json, v: Json, fuel: nat)
    requires SameBranches(reg, s, v, fuel, "anyOf")
    ensures AnyOfVerdict(StrictRegistry(reg), s, v, fuel) == AnyOfVerdict(reg, s, v, fuel)
  {
    if GetArray(s, "anyOf").Some? {
      var subs, strict := GetArray(s, "anyOf").value, StrictRegistry(reg);
      assert (set i | 0 <= i < |subs| :: Eval(strict, subs[i], v, fuel))
          == (set i | 0 <= i < |subs| :: Eval(reg, subs[i], v, fuel));
    }
  }

  lemma SameOneOf(reg: Registry, s: Json, v: Json, fuel: nat)
    requires SameBranches(reg, s, v, fuel, "oneOf")
    ensures OneOfVerdict(StrictRegistry(reg), s, v, fuel) == OneOfVerdict(reg, s, v, fuel)
  {
    if GetArray(s, "oneOf").Some? {
      var subs, strict := GetArray(s, "oneOf").value, StrictRegistry(reg);
      assert seq(|subs|, i requires 0 <= i < |subs| => Eval(strict, subs[i], v, fuel))
          == seq(|subs|, i requires 0 <= i < |subs| => Eval(reg, subs[i], v, fuel));
    }
  }

  lemma {:induction false} FrozenRef(reg: Registry, fixed: set<string>, s: Json, v: Json, fuel: nat)
    requires Fixed(reg.defs, fixed) && MentionsAsRef(fixed, s)
    ensures RefVerdict(StrictRegistry(reg), s, v, fuel) == RefVerdict(reg, s, v, fuel)
    decreases fuel, s, 1
  {
    if GetString(s, "$ref").Some? {
      var name := RefName(GetString(s, "$ref").value);
      if name in reg.defs && fuel > 0 {
        FrozenSame(reg, fixed, reg.defs[name], v, fuel - 1);
      }
    }
  }

  lemma {:induction false} FrozenProperties(reg: Registry, fixed: set<string>, s: Json, v: Json, fuel: nat)
    requires Fixed(reg.defs, fixed) && MentionsIn(fixed, s, "properties")
    ensures PropertiesVerdict(StrictRegistry(reg), s, v, fuel) == PropertiesVerdict(reg, s, v, fuel)
    decreases fuel, s, 1
  {
    if GetObject(s, "properties").Some? && v.JObject? {
      var props, strict := GetObject(s, "properties").value, StrictRegistry(reg);
      forall k | k in props && k in v.fields
        ensures Eval(strict, props[k], v.fields[k], fuel) == Eval(reg, props[k], v.fields[k], fuel)
      {
        FrozenSame(reg, fixed, props[k], v.fields[k], fuel);
      }
      assert (set k | k in props && k in v.fields :: Eval(strict, props[k], v.fields[k], fuel))
          == (set k | k in props && k in v.fields :: Eval(reg, props[k], v.fields[k], fuel));
    }
  }

  lemma {:induction false} FrozenAdditional(reg: Registry, fixed: set<string>, s: Json, v: Json, fuel: nat)
    requires Fixed(reg.defs, fixed) && MentionsBelow(fixed, s, "additionalProperties")
    ensures AdditionalVerdict(StrictRegistry(reg), s, v, fuel) == AdditionalVerdict(reg, s, v, fuel)
    decreases fuel, s, 1
  {
    if Get(s, "additionalProperties").Some? && v.JObject? {
      var additional, strict := Get(s, "additionalProperties").value, StrictRegistry(reg);
      forall k | k in v.fields
        ensures Eval(strict, additional, v.fields[k], fuel) == Eval(reg, additional, v.fields[k], fuel)
      {
        FrozenSame(reg, fixed, additional, v.fields[k], fuel);
      }
      assert (set k | k in v.fields && k !in Declared(s) :: Eval(strict, additional, v.fields[k], fuel))
          == (set k | k in v.fields && k !in Declared(s) :: Eval(reg, additional, v.fields[k], fuel));
    }
  }

  lemma {:induction false} FrozenItems(reg: Registry, fixed: set<string>, s: Json, v: Json, fuel: nat)
    requires Fixed(reg.defs, fixed) && MentionsBelow(fixed, s, "items")
    ensures ItemsVerdict(StrictRegistry(reg), s, v, fuel) == ItemsVerdict(reg, s, v, fuel)
    decreases fuel, s, 1
  {
    if Get(s, "items").Some? && v.JArray? {
      var each, strict := Get(s, "items").value, StrictRegistry(reg);
      forall i | 0 <= i < |v.items|
        ensures Eval(strict, each, v.items[i], fuel) == Eval(reg, each, v.items[i], fuel)
      {
        FrozenSame(reg, fixed, each, v.items[i], fuel);
      }
      assert (set i | 0 <= i < |v.items| :: Eval(strict, each, v.items[i], fuel))
          == (set i | 0 <= i < |v.items| :: Eval(reg, each, v.items[i], fuel));
    }
  }

  lemma {:induction false} FrozenBranches(reg: Registry, fixed: set<string>, s: Json, v: Json, fuel: nat, key: string)
    requires Fixed(reg.defs, fixed) && MentionsInEach(fixed, s, key)
    ensures SameBranches(reg, s, v, fuel, key)
    decreases fuel, s, 1
  {
    if GetArray(s, key).Some? {
      var subs := GetArray(s, key).value;
      forall i | 0 <= i < |subs| ensures Eval(StrictRegistry(reg), subs[i], v, fuel) == Eval(reg, subs[i], v, fuel) {
        FrozenSame(reg, fixed, subs[i], v, fuel);
      }
    }
  }

  /// The pass only tightens

  ghost predicate Ready(reg: Registry, fixed: set<string>) {
    Fixed(reg.defs, fixed) && forall n | n in reg.defs :: Tightenable(fixed, reg.defs[n])
  }

  lemma {:induction false} Tightens(reg: Registry, fixed: set<string>, s: Json, close: bool, v: Json, fuel: nat)
    requires Ready(reg, fixed) && Tightenable(fixed, s)
    requires Eval(StrictRegistry(reg), Strictify(s, close), v, fuel) == Accept
    ensures Eval(reg, s, v, fuel) == Accept
    decreases fuel, s, 2
  {
    if s.JObject? {
      var strict := StrictRegistry(reg);
      AcceptedParts(strict, Strictify(s, close), v, fuel);
      AcceptedParts(reg, s, v, fuel);
      PlainKeywordsKept(s, close, v);
      PlainFieldsKept(s, close);
      TightRef(reg, fixed, s, close, v, fuel);
      TightProperties(reg, fixed, s, close, v, fuel);
      TightAdditional(reg, fixed, s, close, v, fuel);
      TightItems(reg, fixed, s, close, v, fuel);
      TightAllOf(reg, fixed, s, close, v, fuel);
      TightAnyOf(reg, fixed, s, close, v, fuel);
      FrozenNegatives(reg, fixed, s, close, v, fuel);
    }
  }

  /** A key other than `additionalProperties` holds its own strict form. */
  lemma KeyKept(s: Json, close: bool, key: string)
    requires s.JObject? && key != "additionalProperties"
    ensures Get(Strictify(s, close), key) ==
            match Get(s, key) case Some(value) => Some(StrictField(key, value)) case None => None
  {
    SealedFields(s, close);
  }

  predicate IsPlain(field: Option<Json>) {
    field.Some? && !field.value.JObject? && !field.value.JArray?
  }

  /** Neither is plain, or both are and are the same. */
  predicate SamePlain(a: Option<Json>, b: Option<Json>) {
    IsPlain(a) == IsPlain(b) && (IsPlain(a) ==> a == b)
  }

  lemma PlainFieldsAgree(a: Json, b: Json)
    requires a.JObject? && b.JObject?
    requires forall k | k != "additionalProperties" :: SamePlain(Get(a, k), Get(b, k))
    ensures PlainFields(a) == PlainFields(b)
  {
    forall k | k != "additionalProperties"
      ensures k in PlainFields(a) <==> k in PlainFields(b)
      ensures k in PlainFields(a) ==> PlainFields(a)[k] == PlainFields(b)[k]
    {
      assert SamePlain(Get(a, k), Get(b, k));
    }
  }

  /** The pass leaves every field that holds neither a schema nor a list. */
  lemma PlainFieldsKept(s: Json, close: bool)
    requires s.JObject?
    ensures PlainFields(Strictify(s, close)) == PlainFields(s)
  {
    forall k | k != "additionalProperties" ensures SamePlain(Get(Strictify(s, close), k), Get(s, k)) {
      KeyKept(s, close, k);
      if k in s.fields {
        KindKept(k, s.fields[k]);
      }
    }
    PlainFieldsAgree(Strictify(s, close), s);
  }

  lemma KindKept(key: string, value: Json)
    ensures StrictField(key, value).JObject? == value.JObject?
    ensures StrictField(key, value).JArray? == value.JArray?
    ensures !value.JObject? && !value.JArray? ==> StrictField(key, value) == value
  {}

  lemma {:induction false} StringsKept(items: seq<Json>, close: bool)
    ensures StringsIn(Strictify(JArray(items), close).items) == StringsIn(items)
  {
    if items != [] {
      var strict := Strictify(JArray(items), close).items;
      assert strict[1..] == Strictify(JArray(items[1..]), close).items;
      StringsKept(items[1..], close);
    }
  }

  lemma StringFieldKept(s: Json, close: bool, key: string)
    requires s.JObject? && (key == "type" || key == "format" || key == "$ref")
    ensures GetString(Strictify(s, close), key) == GetString(s, key)
  {
    KeyKept(s, close, key);
  }

  lemma PlainKeywordsKept(s: Json, close: bool, v: Json)
    requires s.JObject?
    ensures TypeHolds(Strictify(s, close), v) == TypeHolds(s, v)
    ensures RequiredHolds(Strictify(s, close), v) == RequiredHolds(s, v)
    ensures EnumSurvives(s) && EnumHolds(Strictify(s, close), v) ==> EnumHolds(s, v)
  {
    TypeKept(s, close, v);
    EnumPasses(s, close, v);
    RequiredKept(s, close, v);
  }

  lemma StrictForms(values: seq<Json>, stricts: seq<Json>, v: Json)
    requires |stricts| == |values| && forall i | 0 <= i < |values| :: stricts[i] == Strictify(values[i], true)
    ensures v in stricts <==> exists w | w in values :: v == Strictify(w, true)
  {
    if v in stricts {
      var i :| 0 <= i < |stricts| && stricts[i] == v;
      assert values[i] in values;
    }
    if w :| w in values && v == Strictify(w, true) {
      var i :| 0 <= i < |values| && values[i] == w;
      assert stricts[i] == v;
    }
  }

  /** What an enumeration allows after the pass: the strict forms of its values. */
  lemma EnumPasses(s: Json, close: bool, v: Json)
    requires s.JObject?
    ensures GetArray(s, "enum").Some? == GetArray(Strictify(s, close), "enum").Some?
    ensures GetArray(s, "enum").Some? ==>
              (EnumHolds(Strictify(s, close), v) <==> exists w | w in GetArray(s, "enum").value :: v == Strictify(w, true))
  {
    KeyKept(s, close, "enum");
    if GetArray(s, "enum").Some? {
      var values, stricts := GetArray(s, "enum").value, GetArray(Strictify(s, close), "enum").value;
      assert |stricts| == |values| && forall i | 0 <= i < |values| :: stricts[i] == Strictify(values[i], true);
      StrictForms(values, stricts, v);
    }
  }

  lemma TypeKept(s: Json, close: bool, v: Json)
    requires s.JObject?
    ensures TypeHolds(Strictify(s, close), v) == TypeHolds(s, v)
  {
    KeyKept(s, close, "type");
    StringFieldKept(s, close, "format");
    if GetArray(s, "type").Some? {
      StringsKept(GetArray(s, "type").value, true);
    }
  }

  lemma RequiredKept(s: Json, close: bool, v: Json)
    requires s.JObject?
    ensures RequiredHolds(Strictify(s, close), v) == RequiredHolds(s, v)
  {
    KeyKept(s, close, "required");
    if GetArray(s, "required").Some? {
      StringsKept(GetArray(s, "required").value, true);
    }
  }

  lemma {:induction false} TightRef(reg: Registry, fixed: set<string>, s: Json, close: bool, v: Json, fuel: nat)
    requires Ready(reg, fixed) && s.JObject?
    requires RefVerdict(StrictRegistry(reg), Strictify(s, close), v, fuel) == Accept
    ensures RefVerdict(reg, s, v, fuel) == Accept
    decreases fuel, s, 1
  {
    StringFieldKept(s, close, "$ref");
    if GetString(s, "$ref").Some? {
      var name := RefName(GetString(s, "$ref").value);
      if name in reg.defs && fuel > 0 {
        Tightens(reg, fixed, reg.defs[name], true, v, fuel - 1);
      }
    }
  }

  lemma PropertiesKept(s: Json, close: bool)
    requires s.JObject?
    ensures Declared(Strictify(s, close)) == Declared(s)
    ensures GetObject(s, "properties").Some? ==>
              var props, strict := GetObject(s, "properties").value, GetObject(Strictify(s, close), "properties");
              strict.Some? && strict.value == map k | k in props :: Strictify(props[k], true)
  {
    KeyKept(s, close, "properties");
    if GetObject(s, "properties").Some? {
      var props := GetObject(s, "properties").value;
      assert StrictField("properties", JObject(props)) == StrictProperties(JObject(props));
      assert StrictProperties(JObject(props)).fields == map k | k in props :: Strictify(props[k], true);
    }
  }

  lemma StrictPropertyAccepted(reg: Registry, s: Json, close: bool, v: Json, fuel: nat, k: string)
    requires s.JObject? && v.JObject? && k in v.fields
    requires GetObject(s, "properties").Some? && k in GetObject(s, "properties").value
    requires PropertiesVerdict(StrictRegistry(reg), Strictify(s, close), v, fuel) == Accept
    ensures Eval(StrictRegistry(reg), Strictify(GetObject(s, "properties").value[k], true), v.fields[k], fuel) == Accept
  {
    PropertiesKept(s, close);
    PropertyAccepted(StrictRegistry(reg), Strictify(s, close), v, fuel, k);
  }

  lemma {:induction false} TightProperties(reg: Registry, fixed: set<string>, s: Json, close: bool, v: Json, fuel: nat)
    requires Ready(reg, fixed) && TightenableIn(fixed, s, "properties") && s.JObject?
    requires PropertiesVerdict(StrictRegistry(reg), Strictify(s, close), v, fuel) == Accept
    ensures PropertiesVerdict(reg, s, v, fuel) == Accept
    decreases fuel, s, 1
  {
    if GetObject(s, "properties").Some? && v.JObject? {
      var props := GetObject(s, "properties").value;
      forall k | k in props && k in v.fields ensures Eval(reg, props[k], v.fields[k], fuel) == Accept {
        StrictPropertyAccepted(reg, s, close, v, fuel, k);
        Tightens(reg, fixed, props[k], true, v.fields[k], fuel);
      }
      PropertiesAccepted(reg, s, v, fuel);
    }
  }

  lemma PropertiesAccepted(reg: Registry, s: Json, v: Json, fuel: nat)
    requires GetObject(s, "properties").Some? && v.JObject?
    requires var props := GetObject(s, "properties").value;
             forall k | k in props && k in v.fields :: Eval(reg, props[k], v.fields[k], fuel) == Accept
    ensures PropertiesVerdict(reg, s, v, fuel) == Accept
  {}

  lemma {:induction false} TightAdditional(reg: Registry, fixed: set<string>, s: Json, close: bool, v: Json, fuel: nat)
    requires Ready(reg, fixed) && TightenableBelow(fixed, s, "additionalProperties") && PreservesPlainly(s) && s.JObject?
    requires AdditionalVerdict(StrictRegistry(reg), Strictify(s, close), v, fuel) == Accept
    ensures AdditionalVerdict(reg, s, v, fuel) == Accept
    decreases fuel, s, 1
  {
    PropertiesKept(s, close);
    if Get(s, "additionalProperties").Some? && v.JObject? {
      var additional := Get(s, "additionalProperties").value;
      forall k | k in v.fields && k !in Declared(s) ensures Eval(reg, additional, v.fields[k], fuel) == Accept {
        if !Preserves(s) {
          SealedFields(s, close);
          assert Get(Strictify(s, close), "additionalProperties") == Some(Strictify(additional, true));
          AdditionalAccepted(StrictRegistry(reg), Strictify(s, close), v, fuel, k);
          Tightens(reg, fixed, additional, true, v.fields[k], fuel);
        }
      }
    }
  }

  lemma {:induction false} TightItems(reg: Registry, fixed: set<string>, s: Json, close: bool, v: Json, fuel: nat)
    requires Ready(reg, fixed) && TightenableBelow(fixed, s, "items") && s.JObject?
    requires ItemsVerdict(StrictRegistry(reg), Strictify(s, close), v, fuel) == Accept
    ensures ItemsVerdict(reg, s, v, fuel) == Accept
    decreases fuel, s, 1
  {
    KeyKept(s, close, "items");
    if Get(s, "items").Some? && v.JArray? {
      var each, strict := Get(s, "items").value, StrictRegistry(reg);
      forall i | 0 <= i < |v.items| ensures Eval(reg, each, v.items[i], fuel) == Accept {
        ItemAccepted(strict, Strictify(s, close), v, fuel, i);
        Tightens(reg, fixed, each, true, v.items[i], fuel);
      }
    }
  }

  lemma BranchesKept(s: Json, close: bool, key: string)
    requires s.JObject? && (key == "allOf" || key == "anyOf" || key == "oneOf")
    ensures GetArray(Strictify(s, close), key).Some? == GetArray(s, key).Some?
    ensures GetArray(s, key).Some? ==>
              var subs, strict := GetArray(s, key).value, GetArray(Strictify(s, close), key).value;
              |strict| == |subs| && forall i | 0 <= i < |subs| :: strict[i] == Strictify(subs[i], false)
  {
    KeyKept(s, close, key);
  }

  lemma {:induction false} TightAllOf(reg: Registry, fixed: set<string>, s: Json, close: bool, v: Json, fuel: nat)
    requires Ready(reg, fixed) && TightenableEach(fixed, s, "allOf") && s.JObject?
    requires AllOfVerdict(StrictRegistry(reg), Strictify(s, close), v, fuel) == Accept
    ensures AllOfVerdict(reg, s, v, fuel) == Accept
    decreases fuel, s, 1
  {
    BranchesKept(s, close, "allOf");
    if GetArray(s, "allOf").Some? {
      var subs, stricts := GetArray(s, "allOf").value, GetArray(Strictify(s, close), "allOf").value;
      forall i | 0 <= i < |subs| ensures Eval(reg, subs[i], v, fuel) == Accept {
        assert Eval(StrictRegistry(reg), stricts[i], v, fuel) in
               set j | 0 <= j < |stricts| :: Eval(StrictRegistry(reg), stricts[j], v, fuel);
        Tightens(reg, fixed, subs[i], false, v, fuel);
      }
    }
  }

  lemma {:induction false} TightAnyOf(reg: Registry, fixed: set<string>, s: Json, close: bool, v: Json, fuel: nat)
    requires Ready(reg, fixed) && TightenableEach(fixed, s, "anyOf") && s.JObject?
    requires AnyOfVerdict(StrictRegistry(reg), Strictify(s, close), v, fuel) == Accept
    ensures AnyOfVerdict(reg, s, v, fuel) == Accept
    decreases fuel, s, 1
  {
    BranchesKept(s, close, "anyOf");
    if GetArray(s, "anyOf").Some? {
      var subs, stricts := GetArray(s, "anyOf").value, GetArray(Strictify(s, close), "anyOf").value;
      var i :| 0 <= i < |stricts| && Eval(StrictRegistry(reg), stricts[i], v, fuel) == Accept;
      Tightens(reg, fixed, subs[i], false, v, fuel);
      assert Eval(reg, subs[i], v, fuel) in set j | 0 <= j < |subs| :: Eval(reg, subs[j], v, fuel);
    }
  }

  lemma FrozenNegatives(reg: Registry, fixed: set<string>, s: Json, close: bool, v: Json, fuel: nat)
    requires Fixed(reg.defs, fixed) && NegativesFrozen(fixed, s) && s.JObject?
    requires OneOfVerdict(StrictRegistry(reg), Strictify(s, close), v, fuel) == Accept
    requires NotVerdict(StrictRegistry(reg), Strictify(s, close), v, fuel) == Accept
    ensures OneOfVerdict(reg, s, v, fuel) == Accept
    ensures NotVerdict(reg, s, v, fuel) == Accept
  {
    var strict := StrictRegistry(reg);
    BranchesKept(s, close, "oneOf");
    if GetArray(s, "oneOf").Some? {
      var subs := GetArray(s, "oneOf").value;
      forall i | 0 <= i < |subs| ensures Eval(strict, subs[i], v, fuel) == Eval(reg, subs[i], v, fuel) {
        assert subs[i] in subs && Frozen(fixed, subs[i]);
        FrozenSame(reg, fixed, subs[i], v, fuel);
      }
      var stricts := GetArray(Strictify(s, close), "oneOf").value;
      assert forall i | 0 <= i < |subs| :: subs[i] in subs && stricts[i] == subs[i];
      assert stricts == subs;
      SameOneOf(reg, s, v, fuel);
      assert OneOfVerdict(strict, Strictify(s, close), v, fuel) == OneOfVerdict(strict, s, v, fuel);
    }
    KeyKept(s, close, "not");
    if Get(s, "not").Some? {
      FrozenSame(reg, fixed, Get(s, "not").value, v, fuel);
    }
  }

  /** Whatever the strict schema set accepts, the permissive one accepts. */
  lemma StrictOnlyTightens(reg: Registry, fixed: set<string>, s: Json, close: bool, v: Json)
    requires Ready(reg, fixed) && Tightenable(fixed, s)
    requires Accepts(StrictRegistry(reg), Strictify(s, close), v)
    ensures Accepts(reg, s, v)
  {
    var fuel: nat :| Eval(StrictRegistry(reg), Strictify(s, close), v, fuel) == Accept;
    Tightens(reg, fixed, s, close, v, fuel);
  }

  /** The definitions file is one mapping run through the pass: every definition comes out closed. */
  lemma DefinitionsPass(defs: map<string, Json>)
    requires forall n | n in defs :: !IsCombinator(n) && n != "properties" && n != PRESERVE
    ensures Strictify(JObject(defs), true) == JObject(StrictDefinitions(defs))
  {
    SealedFields(JObject(defs), true);
    assert EachField(defs) == StrictDefinitions(defs);
  }

  /// What the strict set catches, and what it must not

  /** A key the node does not declare is an error at a closed node. */
  lemma UndeclaredFieldRejected(reg: Registry, s: Json, v: Json, fuel: nat, key: string)
    requires GetObject(s, "properties").Some? && Get(s, "additionalProperties").None? && !Preserves(s)
    requires v.JObject? && key in v.fields && key !in Declared(s)
    ensures Eval(reg, Strictify(s, true), v, fuel) == Reject
  {
    var closed := Strictify(s, true);
    SealedFields(s, true);
    PropertiesKept(s, true);
    assert Get(closed, "additionalProperties") == Some(JBool(false));
    assert Eval(reg, JBool(false), v.fields[key], fuel) in
           set k | k in v.fields && k !in Declared(closed) :: Eval(reg, JBool(false), v.fields[k], fuel);
    assert AdditionalVerdict(reg, closed, v, fuel) == Reject;
  }

  /** A node that preserves unknown fields takes any undeclared key, closed or not. */
  lemma PreservedFieldAccepted(reg: Registry, s: Json, close: bool, v: Json, fuel: nat)
    requires s.JObject? && Preserves(s)
    ensures AdditionalVerdict(reg, Strictify(s, close), v, fuel) == Accept
  {
    SealedFields(s, close);
    assert Get(Strictify(s, close), "additionalProperties") == Some(JBool(true));
  }

  /** The immediate body of a combinator branch keeps whatever it said about undeclared keys. */
  lemma BranchStaysOpen(s: Json)
    requires s.JObject? && !Preserves(s)
    ensures Strictify(s, false).fields.Keys == s.fields.Keys
    ensures Get(s, "additionalProperties").None? ==> Get(Strictify(s, false), "additionalProperties").None?
  {
    SealedFields(s, false);
  }
}
