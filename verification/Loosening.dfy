/** Schemas that accept more after the tightening pass than before it. */
module Loosening {
  import opened Prelude
  import opened Json
  import opened JsonSchema
  import opened BuildSchemas
  import opened Tightening

  // One schema for each hypothesis of `Tightening.StrictOnlyTightens`: under
  // `not`, in a `oneOf`, at a node that preserves unknown fields, and in an
  // enumeration.

  /// Under `not`

  /** Nothing asserted but `properties` and `not`. */
  predicate Quiet(s: Json) {
    && s.JObject? && !Preserves(s)
    && Get(s, "$ref").None? && Get(s, "type").None? && Get(s, "enum").None? && Get(s, "required").None?
    && Get(s, "additionalProperties").None? && Get(s, "items").None?
    && Get(s, "allOf").None? && Get(s, "anyOf").None? && Get(s, "oneOf").None?
  }

  predicate Declares(s: Json, props: map<string, Json>) {
    Quiet(s) && Get(s, "not").None? && GetObject(s, "properties") == Some(props)
  }

  lemma DeclaresAccepts(reg: Registry, s: Json, props: map<string, Json>, v: Json, fuel: nat)
    requires NothingElse(reg) && Declares(s, props) && v.JObject?
    requires forall k | k in props && k in v.fields :: Eval(reg, props[k], v.fields[k], fuel) == Accept
    ensures Eval(reg, s, v, fuel) == Accept
  {
    AcceptedParts(reg, s, v, fuel);
  }

  /** Tightening what stands under `not` accepts a value the original turned away. */
  lemma NotIsLoosened(reg: Registry, s: Json, outer: Json, inner: Json, k: string, z: string, fuel: nat)
    requires NothingElse(reg) && Quiet(s) && Get(s, "properties").None? && Get(s, "not") == Some(outer)
    requires Declares(outer, map[k := inner]) && Declares(inner, map[])
    ensures var v := JObject(map[k := JObject(map[z := JNull])]);
            Eval(reg, s, v, fuel) == Reject && Eval(StrictRegistry(reg), Strictify(s, true), v, fuel) == Accept
  {
    var below := JObject(map[z := JNull]);
    var v := JObject(map[k := below]);
    DeclaresAccepts(reg, inner, map[], below, fuel);
    DeclaresAccepts(reg, outer, map[k := inner], v, fuel);
    assert NotVerdict(reg, s, v, fuel) == Reject;
    var strict := StrictRegistry(reg);
    UndeclaredFieldRejected(strict, inner, below, fuel, z);
    assert z in below.fields && k in v.fields;
    StrictOuterRejects(strict, outer, inner, k, v, fuel);
    StrictNotAccepts(strict, s, outer, v, fuel);
  }

  lemma StrictOuterRejects(reg: Registry, outer: Json, inner: Json, k: string, v: Json, fuel: nat)
    requires Declares(outer, map[k := inner]) && v.JObject? && k in v.fields
    requires Eval(reg, Strictify(inner, true), v.fields[k], fuel) == Reject
    ensures Eval(reg, Strictify(outer, false), v, fuel) == Reject
  {
    var strict := Strictify(outer, false);
    PropertiesKept(outer, false);
    var props := GetObject(strict, "properties").value;
    assert Eval(reg, props[k], v.fields[k], fuel) in
           set j | j in props && j in v.fields :: Eval(reg, props[j], v.fields[j], fuel);
    assert PropertiesVerdict(reg, strict, v, fuel) == Reject;
  }

  lemma StrictNotAccepts(reg: Registry, s: Json, outer: Json, v: Json, fuel: nat)
    requires NothingElse(reg) && Quiet(s) && Get(s, "properties").None? && Get(s, "not") == Some(outer)
    requires Eval(reg, Strictify(outer, false), v, fuel) == Reject
    ensures Eval(reg, Strictify(s, true), v, fuel) == Accept
  {
    var strict := Strictify(s, true);
    QuietKept(s);
    KeyKept(s, true, "not");
    AcceptedParts(reg, strict, v, fuel);
  }

  lemma QuietKept(s: Json)
    requires Quiet(s) && Get(s, "properties").None?
    ensures Quiet(Strictify(s, true)) && Get(Strictify(s, true), "properties").None?
  {
    SealedFields(s, true);
    FlagsKept(s, true);
  }

  /// Where unknown fields are preserved

  /** No other schema is referred to or combined. */
  predicate StandsAlone(s: Json) {
    && s.JObject? && GetString(s, "$ref").None? && GetArray(s, "allOf").None? && GetArray(s, "anyOf").None?
    && GetArray(s, "oneOf").None? && Get(s, "not").None?
  }

  lemma UndeclaredAccepted(reg: Registry, s: Json, z: string, fuel: nat)
    requires NothingElse(reg)
    requires StandsAlone(s) && Get(s, "additionalProperties") == Some(JBool(true)) && z !in Declared(s)
    requires var v := JObject(map[z := JNull]); TypeHolds(s, v) && EnumHolds(s, v) && RequiredHolds(s, v)
    ensures Eval(reg, s, JObject(map[z := JNull]), fuel) == Accept
  {
    AcceptedParts(reg, s, JObject(map[z := JNull]), fuel);
  }

  lemma AloneKept(s: Json)
    requires StandsAlone(s)
    ensures StandsAlone(Strictify(s, true))
  {
    KeyKept(s, true, "$ref");
    KeyKept(s, true, "not");
    BranchesKept(s, true, "allOf");
    BranchesKept(s, true, "anyOf");
    BranchesKept(s, true, "oneOf");
  }

  /** The pass leaves the enumeration as it is. */
  predicate EnumIsKept(s: Json) {
    match GetArray(s, "enum")
    case Some(values) => Strictify(JArray(values), true) == JArray(values)
    case None => true
  }

  /** Where unknown fields are preserved, a ban on undeclared keys is lifted. */
  lemma PreserveIsLoosened(reg: Registry, s: Json, z: string, fuel: nat)
    requires NothingElse(reg) && StandsAlone(s) && EnumIsKept(s)
    requires Preserves(s) && Get(s, "additionalProperties") == Some(JBool(false)) && z !in Declared(s)
    requires var v := JObject(map[z := JNull]); TypeHolds(s, v) && EnumHolds(s, v) && RequiredHolds(s, v)
    ensures Eval(reg, s, JObject(map[z := JNull]), fuel) == Reject
    ensures Eval(StrictRegistry(reg), Strictify(s, true), JObject(map[z := JNull]), fuel) == Accept
  {
    var v, banned := JObject(map[z := JNull]), JBool(false);
    assert z in v.fields;
    assert Eval(reg, banned, v.fields[z], fuel) in
           set k | k in v.fields && k !in Declared(s) :: Eval(reg, banned, v.fields[k], fuel);
    assert AdditionalVerdict(reg, s, v, fuel) == Reject;
    SealedFields(s, true);
    AloneKept(s);
    PlainKeywordsKept(s, true, v);
    KeyKept(s, true, "enum");
    PropertiesKept(s, true);
    UndeclaredAccepted(StrictRegistry(reg), Strictify(s, true), z, fuel);
  }

  /// In a `oneOf`

  /** A node that asserts nothing. */
  predicate AcceptsAll(s: Json) {
    Quiet(s) && Get(s, "properties").None? && Get(s, "not").None?
  }

  /** One of two schemas, and nothing else. */
  predicate Chooses(s: Json, first: Json, second: Json) {
    && s.JObject? && !Preserves(s) && GetArray(s, "oneOf") == Some([first, second])
    && Get(s, "$ref").None? && Get(s, "type").None? && Get(s, "enum").None? && Get(s, "required").None?
    && Get(s, "properties").None? && Get(s, "additionalProperties").None? && Get(s, "items").None?
    && Get(s, "allOf").None? && Get(s, "anyOf").None? && Get(s, "not").None?
  }

  lemma AllAccepted(reg: Registry, s: Json, v: Json, fuel: nat)
    requires NothingElse(reg) && AcceptsAll(s)
    ensures Eval(reg, s, v, fuel) == Accept
  {
    AcceptedParts(reg, s, v, fuel);
  }

  lemma ChoiceRejects(reg: Registry, s: Json, first: Json, second: Json, v: Json, fuel: nat)
    requires Chooses(s, first, second)
    requires Eval(reg, first, v, fuel) == Eval(reg, second, v, fuel) == Accept
    ensures Eval(reg, s, v, fuel) == Reject
  {
    var branches := [first, second];
    var verdicts := seq(|branches|, i requires 0 <= i < |branches| => Eval(reg, branches[i], v, fuel));
    assert verdicts[0] == verdicts[1] == Accept;
    assert OneOfVerdict(reg, s, v, fuel) == ExactlyOne(verdicts) == Reject;
  }

  lemma ChoiceAccepts(reg: Registry, s: Json, first: Json, second: Json, v: Json, fuel: nat)
    requires NothingElse(reg) && Chooses(s, first, second)
    requires Eval(reg, first, v, fuel) == Reject && Eval(reg, second, v, fuel) == Accept
    ensures Eval(reg, s, v, fuel) == Accept
  {
    var branches := [first, second];
    var verdicts := seq(|branches|, i requires 0 <= i < |branches| => Eval(reg, branches[i], v, fuel));
    assert OnlyAt(verdicts, 1);
    assert OneOfVerdict(reg, s, v, fuel) == ExactlyOne(verdicts);
    AcceptedParts(reg, s, v, fuel);
  }

  lemma ChoiceKept(s: Json, first: Json, second: Json)
    requires Chooses(s, first, second)
    ensures Chooses(Strictify(s, true), Strictify(first, false), Strictify(second, false))
  {
    SealedFields(s, true);
    FlagsKept(s, true);
    BranchesKept(s, true, "oneOf");
    var stricts := GetArray(Strictify(s, true), "oneOf").value;
    assert stricts == [Strictify(first, false), Strictify(second, false)];
  }

  lemma AllStillAccepted(s: Json)
    requires AcceptsAll(s)
    ensures AcceptsAll(Strictify(s, false))
  {
    SealedFields(s, false);
    FlagsKept(s, false);
  }

  /** A value that two branches accepted and `oneOf` turned away is let through once the first is tightened. */
  lemma OneOfIsLoosened(
    reg: Registry, s: Json, outer: Json, inner: Json, other: Json, k: string, z: string, fuel: nat)
    requires NothingElse(reg) && Chooses(s, outer, other) && AcceptsAll(other)
    requires Declares(outer, map[k := inner]) && Declares(inner, map[])
    ensures var v := JObject(map[k := JObject(map[z := JNull])]);
            Eval(reg, s, v, fuel) == Reject && Eval(StrictRegistry(reg), Strictify(s, true), v, fuel) == Accept
  {
    var below, strict := JObject(map[z := JNull]), StrictRegistry(reg);
    var v := JObject(map[k := below]);
    DeclaresAccepts(reg, inner, map[], below, fuel);
    DeclaresAccepts(reg, outer, map[k := inner], v, fuel);
    AllAccepted(reg, other, v, fuel);
    ChoiceRejects(reg, s, outer, other, v, fuel);
    assert z in below.fields && k in v.fields;
    UndeclaredFieldRejected(strict, inner, below, fuel, z);
    StrictOuterRejects(strict, outer, inner, k, v, fuel);
    AllStillAccepted(other);
    AllAccepted(strict, Strictify(other, false), v, fuel);
    ChoiceKept(s, outer, other);
    ChoiceAccepts(strict, Strictify(s, true), Strictify(outer, false), Strictify(other, false), v, fuel);
  }

  /// In an enumeration

  /** One of the values, and nothing else. */
  predicate Enumerates(s: Json, values: seq<Json>) {
    && s.JObject? && !Preserves(s) && GetArray(s, "enum") == Some(values)
    && Get(s, "$ref").None? && Get(s, "type").None? && Get(s, "required").None?
    && Get(s, "properties").None? && Get(s, "additionalProperties").None? && Get(s, "items").None?
    && Get(s, "allOf").None? && Get(s, "anyOf").None? && Get(s, "oneOf").None? && Get(s, "not").None?
  }

  lemma EnumerationMeans(reg: Registry, s: Json, values: seq<Json>, v: Json, fuel: nat)
    requires NothingElse(reg) && Enumerates(s, values)
    ensures Eval(reg, s, v, fuel) == Known(v in values)
  {
    AcceptedParts(reg, s, v, fuel);
  }

  lemma EnumerationKept(s: Json, values: seq<Json>) returns (stricts: seq<Json>)
    requires Enumerates(s, values)
    ensures Enumerates(Strictify(s, true), stricts)
    ensures forall v :: v in stricts <==> exists w | w in values :: v == Strictify(w, true)
  {
    SealedFields(s, true);
    FlagsKept(s, true);
    KeyKept(s, true, "enum");
    stricts := GetArray(Strictify(s, true), "enum").value;
    forall v ensures v in stricts <==> exists w | w in values :: v == Strictify(w, true) {
      EnumPasses(s, true, v);
    }
  }

  /** The schema turns the value away, and its strict form lets it through. */
  ghost predicate LetsThrough(reg: Registry, s: Json, v: Json, fuel: nat) {
    Eval(reg, s, v, fuel) == Reject && Eval(StrictRegistry(reg), Strictify(s, true), v, fuel) == Accept
  }

  /** Exactly the enumerations that do not survive the pass are loosened. */
  lemma EnumIsLoosenedExactly(reg: Registry, s: Json, values: seq<Json>, fuel: nat)
    requires NothingElse(reg) && Enumerates(s, values)
    ensures (exists v :: LetsThrough(reg, s, v, fuel)) <==> !EnumSurvives(s)
  {
    var stricts := EnumerationKept(s, values);
    forall v ensures LetsThrough(reg, s, v, fuel) <==> v !in values && v in stricts {
      EnumerationMeans(reg, s, values, v, fuel);
      EnumerationMeans(StrictRegistry(reg), Strictify(s, true), stricts, v, fuel);
    }
    if w :| w in values && Strictify(w, true) !in values {
      assert LetsThrough(reg, s, Strictify(w, true), fuel);
    }
  }

  /** A value that is itself read as an object schema, and what the pass makes of it. */
  const OPEN := JObject(map["properties" := JObject(map[])])
  const CLOSED := JObject(map["properties" := JObject(map[]), "additionalProperties" := JBool(false)])

  lemma OpenIsClosed()
    ensures Strictify(OPEN, true) == CLOSED && OPEN != CLOSED
  {
    SealedFields(OPEN, true);
    assert "additionalProperties" !in OPEN.fields && "additionalProperties" in CLOSED.fields;
    assert EachField(OPEN.fields) == OPEN.fields;
  }

  /** One such value is enough. */
  lemma EnumIsLoosened(reg: Registry, s: Json, fuel: nat)
    requires NothingElse(reg) && Enumerates(s, [OPEN])
    ensures Eval(reg, s, CLOSED, fuel) == Reject
    ensures Eval(StrictRegistry(reg), Strictify(s, true), CLOSED, fuel) == Accept
  {
    OpenIsClosed();
    var stricts := EnumerationKept(s, [OPEN]);
    assert OPEN in [OPEN];
    EnumerationMeans(reg, s, [OPEN], CLOSED, fuel);
    EnumerationMeans(StrictRegistry(reg), Strictify(s, true), stricts, CLOSED, fuel);
  }
}
