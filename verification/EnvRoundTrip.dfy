/** A store through the environment. */
module EnvRoundTrip {
  import opened Prelude
  import opened Ordering
  import opened Strings
  import opened EnvNames
  import opened ShellText
  import opened SecretStores
  import opened StoreValidation

  // It is printed as assignments (cli/src/commands/secrets.rs), sourced, and read
  // back through the declared bindings (cli/src/domain/secrets.rs,
  // cli/src/io/secrets.rs).

  datatype Pair = Pair(secret: string, key: string)

  function VarOf(store: string, p: Pair): string {
    EnvVarName(store, p.secret, p.key)
  }

  lemma VarIsName(store: string, p: Pair)
    ensures IsName(VarOf(store, p))
  {
    var parts := EnvComponent(store) + (SEPARATOR + (EnvComponent(p.secret) + (SEPARATOR + EnvComponent(p.key))));
    assert VarOf(store, p) == ENV_PREFIX + parts;
    assert VarOf(store, p)[0] == 'C';
  }

  predicate Printed(data: StoreValues, p: Pair) { Lookup(data, p.secret, p.key).Some? }

  /// Printing

  function KeyLines(store: string, secret: string, values: map<string, string>, keys: seq<string>): string
    requires forall k | k in keys :: k in values
  {
    if keys == [] then ""
    else
      var last := keys[|keys| - 1];
      KeyLines(store, secret, values, keys[..|keys| - 1]) + Line(EnvVarName(store, secret, last), values[last])
  }

  function StoreLines(store: string, data: StoreValues, names: seq<string>): string
    requires forall n | n in names :: n in data
  {
    if names == [] then ""
    else
      var last := names[|names| - 1];
      StoreLines(store, data, names[..|names| - 1]) + KeyLines(store, last, data[last], Keys(data[last].Keys))
  }

  /** The lines of a secret, key by key in the order given. */
  method PrintSecret(store: string, secret: string, values: map<string, string>, keys: seq<string>) returns (out: string)
    requires forall k | k in keys :: k in values
    ensures out == KeyLines(store, secret, values, keys)
  {
    out := "";
    for i := 0 to |keys|
      invariant out == KeyLines(store, secret, values, keys[..i])
    {
      assert keys[..i + 1][..i] == keys[..i];
      out := out + Line(EnvVarName(store, secret, keys[i]), values[keys[i]]);
    }
    assert keys[..|keys|] == keys;
  }

  method PrintSecrets(store: string, data: StoreValues, names: seq<string>) returns (out: string)
    requires forall n | n in names :: n in data
    ensures out == StoreLines(store, data, names)
  {
    out := "";
    for i := 0 to |names|
      invariant out == StoreLines(store, data, names[..i])
    {
      assert names[..i + 1][..i] == names[..i];
      var lines := PrintSecret(store, names[i], data[names[i]], Keys(data[names[i]].Keys));
      out := out + lines;
    }
    assert names[..|names|] == names;
  }

  function StoreText(store: string, data: StoreValues): string {
    StoreLines(store, data, Keys(data.Keys))
  }

  method PrintEnvStore(store: string, data: StoreValues) returns (out: string)
    ensures out == StoreText(store, data)
  {
    out := PrintSecrets(store, data, Keys(data.Keys));
  }

  /// Sourcing

  function AssignKeys(store: string, secret: string, values: map<string, string>, keys: seq<string>, env: Env): Env
    requires forall k | k in keys :: k in values
  {
    if keys == [] then env
    else
      var last := keys[|keys| - 1];
      AssignKeys(store, secret, values, keys[..|keys| - 1], env)[EnvVarName(store, secret, last) := values[last]]
  }

  function AssignStore(store: string, data: StoreValues, names: seq<string>, env: Env): Env
    requires forall n | n in names :: n in data
  {
    if names == [] then env
    else
      var last := names[|names| - 1];
      AssignKeys(store, last, data[last], Keys(data[last].Keys), AssignStore(store, data, names[..|names| - 1], env))
  }

  lemma {:induction false} KeyLinesAssign(
    store: string, secret: string, values: map<string, string>, keys: seq<string>, env: Env, t: string)
    requires forall k | k in keys :: k in values
    ensures Source(KeyLines(store, secret, values, keys) + t, env) ==
            Source(t, AssignKeys(store, secret, values, keys, env))
    decreases |keys|
  {
    if keys == [] {
      assert "" + t == t;
    } else {
      var init, last := keys[..|keys| - 1], keys[|keys| - 1];
      var name := EnvVarName(store, secret, last);
      var line := Line(name, values[last]);
      Regroup(KeyLines(store, secret, values, init), line, t);
      KeyLinesAssign(store, secret, values, init, env, line + t);
      VarIsName(store, Pair(secret, last));
      LineAssigns(name, values[last], t, AssignKeys(store, secret, values, init, env));
    }
  }

  lemma {:induction false} StoreLinesAssign(store: string, data: StoreValues, names: seq<string>, env: Env, t: string)
    requires forall n | n in names :: n in data
    ensures Source(StoreLines(store, data, names) + t, env) == Source(t, AssignStore(store, data, names, env))
    decreases |names|
  {
    if names == [] {
      assert "" + t == t;
    } else {
      var init, last := names[..|names| - 1], names[|names| - 1];
      var keys := Keys(data[last].Keys);
      var lines := KeyLines(store, last, data[last], keys);
      Regroup(StoreLines(store, data, init), lines, t);
      StoreLinesAssign(store, data, init, env, lines + t);
      KeyLinesAssign(store, last, data[last], keys, AssignStore(store, data, init, env), t);
    }
  }

  /** The variable has its old value, or the value of some printed pair of its name. */
  ghost predicate Explained(store: string, data: StoreValues, env: Env, after: Env, v: string) {
    && (v in env ==> v in after)
    && (v in after ==>
          (v in env && after[v] == env[v])
          || exists p: Pair :: Printed(data, p) && VarOf(store, p) == v && Lookup(data, p.secret, p.key) == Some(after[v]))
  }

  lemma ExplainedBy(store: string, data: StoreValues, env: Env, p: Pair, value: string, v: string)
    requires Lookup(data, p.secret, p.key) == Some(value)
    ensures Explained(store, data, env, env[VarOf(store, p) := value], v)
  {}

  lemma {:induction false} KeysExplained(store: string, data: StoreValues, secret: string, keys: seq<string>, env: Env, v: string)
    requires secret in data && forall k | k in keys :: k in data[secret]
    ensures var after := AssignKeys(store, secret, data[secret], keys, env);
            && Explained(store, data, env, after, v)
            && forall k | k in keys && EnvVarName(store, secret, k) == v :: v in after
  {
    if keys != [] {
      var init, last := keys[..|keys| - 1], keys[|keys| - 1];
      var mid := AssignKeys(store, secret, data[secret], init, env);
      assert keys == init + [last];
      KeysExplained(store, data, secret, init, env, v);
      ExplainedBy(store, data, mid, Pair(secret, last), data[secret][last], v);
    }
  }

  lemma {:induction false} StoreExplained(store: string, data: StoreValues, names: seq<string>, env: Env, v: string)
    requires forall n | n in names :: n in data
    ensures var after := AssignStore(store, data, names, env);
            && Explained(store, data, env, after, v)
            && forall p: Pair | p.secret in names && Printed(data, p) && VarOf(store, p) == v :: v in after
  {
    if names != [] {
      var init, last := names[..|names| - 1], names[|names| - 1];
      var mid, keys := AssignStore(store, data, init, env), Keys(data[last].Keys);
      var after := AssignStore(store, data, names, env);
      assert names == init + [last];
      StoreExplained(store, data, init, env, v);
      KeysExplained(store, data, last, keys, mid, v);
      forall p: Pair | p.secret in names && Printed(data, p) && VarOf(store, p) == v ensures v in after {
        if p.secret == last {
          assert p.key in keys;
        }
      }
    }
  }

  /// Reading back

  datatype Binding = Binding(name: string, secret: string, key: string)

  predicate Declared(managed: Managed, store: string, p: Pair) {
    p.secret in managed && managed[p.secret].store == store && p.key in managed[p.secret].keys
  }

  function KeyBindings(store: string, secret: string, keys: seq<string>): (bs: seq<Binding>)
    ensures forall b: Binding :: b in bs <==> b.secret == secret && b.key in keys && b.name == EnvVarName(store, secret, b.key)
  {
    if keys == [] then []
    else
      var last := keys[|keys| - 1];
      assert keys == keys[..|keys| - 1] + [last];
      KeyBindings(store, secret, keys[..|keys| - 1]) + [Binding(EnvVarName(store, secret, last), secret, last)]
  }

  function BindingsOf(managed: Managed, store: string, names: seq<string>): (bs: seq<Binding>)
    requires forall n | n in names :: n in managed
    ensures forall b: Binding :: b in bs <==>
              b.secret in names && b.key in managed[b.secret].keys && b.name == EnvVarName(store, b.secret, b.key)
  {
    if names == [] then []
    else
      var last := names[|names| - 1];
      assert names == names[..|names| - 1] + [last];
      BindingsOf(managed, store, names[..|names| - 1]) + KeyBindings(store, last, Keys(managed[last].keys.Keys))
  }

  /** One binding for every declared key of the store. */
  function EnvBindings(managed: Managed, store: string): (bs: seq<Binding>)
    ensures forall b: Binding :: b in bs <==>
              Declared(managed, store, Pair(b.secret, b.key)) && b.name == EnvVarName(store, b.secret, b.key)
  {
    BindingsOf(managed, store, NamesIn(managed, store))
  }

  function Insert(values: StoreValues, secret: string, key: string, value: string): StoreValues {
    values[secret := (if secret in values then values[secret] else map[])[key := value]]
  }

  function ReadBack(bindings: seq<Binding>, env: Env): StoreValues {
    if bindings == [] then map[]
    else
      var before, b := ReadBack(bindings[..|bindings| - 1], env), bindings[|bindings| - 1];
      if b.name in env then Insert(before, b.secret, b.key, env[b.name]) else before
  }

  method ReadEnvStore(bindings: seq<Binding>, env: Env) returns (values: StoreValues)
    ensures values == ReadBack(bindings, env)
  {
    values := map[];
    for i := 0 to |bindings|
      invariant values == ReadBack(bindings[..i], env)
    {
      var b := bindings[i];
      assert bindings[..i + 1][..i] == bindings[..i];
      if b.name in env {
        values := Insert(values, b.secret, b.key, env[b.name]);
      }
    }
    assert bindings[..|bindings|] == bindings;
  }

  /** No secret is held without a key. */
  predicate NoEmpty(values: StoreValues) {
    forall s | s in values :: values[s].Keys != {}
  }

  lemma SameLookupsSameValues(a: StoreValues, b: StoreValues)
    requires NoEmpty(a) && NoEmpty(b)
    requires forall s, k :: Lookup(a, s, k) == Lookup(b, s, k)
    ensures a == b
  {
    forall s | s in a ensures s in b {
      var k :| k in a[s].Keys;
      assert Lookup(a, s, k) == Lookup(b, s, k);
    }
    forall s | s in b ensures s in a {
      var k :| k in b[s].Keys;
      assert Lookup(a, s, k) == Lookup(b, s, k);
    }
    forall s | s in a ensures a[s] == b[s] {
      forall k ensures k in a[s] <==> k in b[s] {
        assert Lookup(a, s, k) == Lookup(b, s, k);
      }
      forall k | k in a[s] ensures a[s][k] == b[s][k] {
        assert Lookup(a, s, k) == Lookup(b, s, k);
      }
    }
  }

  lemma InsertLookup(values: StoreValues, secret: string, key: string, value: string, s: string, k: string)
    ensures Lookup(Insert(values, secret, key, value), s, k) ==
            if s == secret && k == key then Some(value) else Lookup(values, s, k)
    ensures NoEmpty(values) ==> NoEmpty(Insert(values, secret, key, value))
  {
    assert key in Insert(values, secret, key, value)[secret].Keys;
  }

  predicate NamedFor(store: string, bindings: seq<Binding>) {
    forall b | b in bindings :: b.name == EnvVarName(store, b.secret, b.key)
  }

  lemma {:induction false} ReadBackLookup(store: string, bindings: seq<Binding>, env: Env, s: string, k: string)
    requires NamedFor(store, bindings)
    ensures NoEmpty(ReadBack(bindings, env))
    ensures Lookup(ReadBack(bindings, env), s, k) ==
            if Binding(EnvVarName(store, s, k), s, k) in bindings && EnvVarName(store, s, k) in env
            then Some(env[EnvVarName(store, s, k)]) else None
  {
    if bindings != [] {
      var init, b := bindings[..|bindings| - 1], bindings[|bindings| - 1];
      assert bindings == init + [b];
      ReadBackLookup(store, init, env, s, k);
      if b.name in env {
        InsertLookup(ReadBack(init, env), b.secret, b.key, env[b.name], s, k);
      }
    }
  }

  /** The declared part of a store: what the bindings can bring back. */
  predicate IsDeclaredPart(managed: Managed, store: string, data: StoreValues, part: StoreValues) {
    && NoEmpty(part)
    && (forall s | s in part :: forall k | k in part[s] ::
          Declared(managed, store, Pair(s, k)) && Lookup(data, s, k) == Some(part[s][k]))
    && (forall s | s in data :: forall k | k in data[s] ::
          Declared(managed, store, Pair(s, k)) ==> Lookup(part, s, k).Some?)
  }

  /** What the variables of a store's bindings hold, and nothing before it is printed. */
  ghost predicate Unset(managed: Managed, store: string, env: Env) {
    forall p: Pair | Declared(managed, store, p) :: VarOf(store, p) !in env
  }

  /** Pairs that share a variable with a declared one have its value. */
  ghost predicate Agreement(managed: Managed, store: string, data: StoreValues) {
    forall p: Pair, q: Pair | Declared(managed, store, p) && Printed(data, q) && VarOf(store, p) == VarOf(store, q) ::
      Lookup(data, p.secret, p.key) == Lookup(data, q.secret, q.key)
  }

  function Sourced(store: string, data: StoreValues, env: Env): Env {
    AssignStore(store, data, Keys(data.Keys), env)
  }

  function RoundTripped(managed: Managed, store: string, data: StoreValues, env: Env): StoreValues {
    ReadBack(EnvBindings(managed, store), Sourced(store, data, env))
  }

  lemma SourcingPrinted(store: string, data: StoreValues, env: Env)
    ensures Source(StoreText(store, data), env) == Some(Sourced(store, data, env))
  {
    var names := Keys(data.Keys);
    StoreLinesAssign(store, data, names, env, "");
    assert StoreLines(store, data, names) + "" == StoreLines(store, data, names);
  }

  lemma SourcedValue(store: string, data: StoreValues, env: Env, v: string)
    ensures Explained(store, data, env, Sourced(store, data, env), v)
    ensures forall p: Pair | Printed(data, p) && VarOf(store, p) == v :: v in Sourced(store, data, env)
  {
    StoreExplained(store, data, Keys(data.Keys), env, v);
  }

  lemma ReadsSourced(managed: Managed, store: string, data: StoreValues, env: Env, p: Pair)
    ensures var after, v := Sourced(store, data, env), VarOf(store, p);
            Lookup(RoundTripped(managed, store, data, env), p.secret, p.key) ==
            if Declared(managed, store, p) && v in after then Some(after[v]) else None
  {
    ReadBackLookup(store, EnvBindings(managed, store), Sourced(store, data, env), p.secret, p.key);
  }

  lemma AgreementReads(managed: Managed, store: string, data: StoreValues, env: Env, p: Pair)
    requires Unset(managed, store, env) && Agreement(managed, store, data)
    ensures Lookup(RoundTripped(managed, store, data, env), p.secret, p.key) ==
            if Declared(managed, store, p) then Lookup(data, p.secret, p.key) else None
  {
    ReadsSourced(managed, store, data, env, p);
    SourcedValue(store, data, env, VarOf(store, p));
  }

  /**
    A store survives being printed, sourced and read back, up to what is
    declared, when pairs sharing a variable share a value.
   */
  lemma AgreementRoundTrips(managed: Managed, store: string, data: StoreValues, env: Env)
    requires Unset(managed, store, env) && Agreement(managed, store, data)
    ensures IsDeclaredPart(managed, store, data, RoundTripped(managed, store, data, env))
  {
    var part := RoundTripped(managed, store, data, env);
    ReadBackLookup(store, EnvBindings(managed, store), Sourced(store, data, env), "", "");
    forall s, k ensures Lookup(part, s, k) == if Declared(managed, store, Pair(s, k)) then Lookup(data, s, k) else None {
      AgreementReads(managed, store, data, env, Pair(s, k));
    }
  }

  lemma DeclaredPartLookup(managed: Managed, store: string, data: StoreValues, part: StoreValues, p: Pair)
    requires IsDeclaredPart(managed, store, data, part) && Declared(managed, store, p)
    ensures Lookup(part, p.secret, p.key) == Lookup(data, p.secret, p.key)
  {}

  /** When all that is printed is declared, that condition is exact. */
  lemma RoundTripsExactlyWhenAgreeing(managed: Managed, store: string, data: StoreValues, env: Env)
    requires Unset(managed, store, env)
    requires forall p: Pair | Printed(data, p) :: Declared(managed, store, p)
    ensures IsDeclaredPart(managed, store, data, RoundTripped(managed, store, data, env)) <==> Agreement(managed, store, data)
  {
    var part := RoundTripped(managed, store, data, env);
    if Agreement(managed, store, data) {
      AgreementRoundTrips(managed, store, data, env);
    }
    if IsDeclaredPart(managed, store, data, part) {
      forall p: Pair, q: Pair | Declared(managed, store, p) && Printed(data, q) && VarOf(store, p) == VarOf(store, q)
        ensures Lookup(data, p.secret, p.key) == Lookup(data, q.secret, q.key)
      {
        ReadsSourced(managed, store, data, env, p);
        ReadsSourced(managed, store, data, env, q);
        DeclaredPartLookup(managed, store, data, part, p);
        DeclaredPartLookup(managed, store, data, part, q);
      }
    }
  }

  /** The declared part is one store, not several. */
  lemma DeclaredPartIsOne(managed: Managed, store: string, data: StoreValues, a: StoreValues, b: StoreValues)
    requires IsDeclaredPart(managed, store, data, a) && IsDeclaredPart(managed, store, data, b)
    ensures a == b
  {
    forall s, k ensures Lookup(a, s, k) == Lookup(b, s, k) {
      if Declared(managed, store, Pair(s, k)) {
        DeclaredPartLookup(managed, store, data, a, Pair(s, k));
        DeclaredPartLookup(managed, store, data, b, Pair(s, k));
      }
    }
    SameLookupsSameValues(a, b);
  }

  /// Names that cannot clash

  /** Store and secret names separable, and no two names alike once normalised. */
  ghost predicate NamesStayApart(managed: Managed, store: string, data: StoreValues) {
    && Separable(EnvComponent(store))
    && (forall p: Pair | Declared(managed, store, p) || Printed(data, p) :: Separable(EnvComponent(p.secret)))
    && (forall p: Pair, q: Pair | Declared(managed, store, p) && Printed(data, q) ::
          && (EnvComponent(p.secret) == EnvComponent(q.secret) ==> p.secret == q.secret)
          && (p.secret == q.secret && EnvComponent(p.key) == EnvComponent(q.key) ==> p.key == q.key))
  }

  lemma ApartNamesAgree(managed: Managed, store: string, data: StoreValues)
    requires NamesStayApart(managed, store, data)
    ensures Agreement(managed, store, data)
  {
    forall p: Pair, q: Pair | Declared(managed, store, p) && Printed(data, q) && VarOf(store, p) == VarOf(store, q)
      ensures Lookup(data, p.secret, p.key) == Lookup(data, q.secret, q.key)
    {
      NameDeterminesParts(store, p.secret, p.key, store, q.secret, q.key);
    }
  }

  /** The whole journey of a store: the text sources, and what is read back is its declared part and nothing else. */
  lemma EnvironmentRoundTrip(managed: Managed, store: string, data: StoreValues, env: Env)
    requires Unset(managed, store, env) && NamesStayApart(managed, store, data)
    ensures var sourced := Source(StoreText(store, data), env);
            && sourced.Some?
            && forall part :: IsDeclaredPart(managed, store, data, part) <==>
                              part == ReadBack(EnvBindings(managed, store), sourced.value)
  {
    SourcingPrinted(store, data, env);
    ApartNamesAgree(managed, store, data);
    AgreementRoundTrips(managed, store, data, env);
    forall part | IsDeclaredPart(managed, store, data, part) ensures part == RoundTripped(managed, store, data, env) {
      DeclaredPartIsOne(managed, store, data, part, RoundTripped(managed, store, data, env));
    }
  }
}
