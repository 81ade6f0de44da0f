/** `validate_store` of cli/src/domain/secrets.rs, and what it says of a store just minted. */
module StoreValidation {
  import opened Prelude
  import opened Ordering
  import opened SecretStores

  datatype StoreProblem =
    | MissingSecret(secret: string)
    | MissingKey(secret: string, key: string)
    | BlankKey(secret: string, key: string)
    | PlaceholderKey(secret: string, key: string)

  /** The problem of one declared key, given what its secret holds. */
  function KeyProblem(secret: string, present: map<string, string>, key: string): seq<StoreProblem> {
    if key !in present then [MissingKey(secret, key)]
    else if present[key] == "" then [BlankKey(secret, key)]
    else if present[key] == PLACEHOLDER then [PlaceholderKey(secret, key)]
    else []
  }

  function KeyProblems(secret: string, present: map<string, string>, keys: seq<string>): seq<StoreProblem> {
    if keys == [] then []
    else KeyProblems(secret, present, keys[..|keys| - 1]) + KeyProblem(secret, present, keys[|keys| - 1])
  }

  function SecretProblems(managed: Managed, values: StoreValues, name: string): seq<StoreProblem>
    requires name in managed
  {
    if name !in values then [MissingSecret(name)]
    else KeyProblems(name, values[name], Keys(managed[name].keys.Keys))
  }

  function StoreProblems(managed: Managed, values: StoreValues, names: seq<string>): seq<StoreProblem>
    requires forall n | n in names :: n in managed
  {
    if names == [] then []
    else
      StoreProblems(managed, values, names[..|names| - 1])
      + SecretProblems(managed, values, names[|names| - 1])
  }

  method CheckKeys(secret: string, present: map<string, string>, keys: seq<string>) returns (problems: seq<StoreProblem>)
    ensures problems == KeyProblems(secret, present, keys)
  {
    problems := [];
    for i := 0 to |keys|
      invariant problems == KeyProblems(secret, present, keys[..i])
    {
      var key := keys[i];
      assert keys[..i + 1][..i] == keys[..i];
      if key !in present {
        problems := problems + [MissingKey(secret, key)];
      } else if present[key] == "" {
        problems := problems + [BlankKey(secret, key)];
      } else if present[key] == PLACEHOLDER {
        problems := problems + [PlaceholderKey(secret, key)];
      }
    }
    assert keys[..|keys|] == keys;
  }

  method CheckSecrets(managed: Managed, values: StoreValues, names: seq<string>) returns (problems: seq<StoreProblem>)
    requires forall n | n in names :: n in managed
    ensures problems == StoreProblems(managed, values, names)
  {
    problems := [];
    for i := 0 to |names|
      invariant problems == StoreProblems(managed, values, names[..i])
    {
      var name := names[i];
      assert names[..i + 1][..i] == names[..i];
      if name !in values {
        problems := problems + [MissingSecret(name)];
        continue;
      }
      var found := CheckKeys(name, values[name], Keys(managed[name].keys.Keys));
      problems := problems + found;
    }
    assert names[..|names|] == names;
  }

  /** The secrets of a store, in name order. */
  function NamesIn(managed: Managed, store: string): (names: seq<string>)
    ensures forall n :: n in names <==> n in managed && managed[n].store == store
  {
    Keys(SecretsIn(managed, store))
  }

  method ValidateStore(managed: Managed, store: string, values: StoreValues) returns (problems: seq<StoreProblem>)
    ensures problems == StoreProblems(managed, values, NamesIn(managed, store))
  {
    problems := CheckSecrets(managed, values, NamesIn(managed, store));
  }

  /// What a problem says

  /** What a problem of a declared key says of the values its secret holds. */
  predicate KeyIsFaulty(present: map<string, string>, p: StoreProblem) {
    match p
    case MissingSecret(_) => false
    case MissingKey(_, key) => key !in present
    case BlankKey(_, key) => key in present && present[key] == ""
    case PlaceholderKey(_, key) => key in present && present[key] == PLACEHOLDER
  }

  predicate Faulty(managed: Managed, values: StoreValues, p: StoreProblem) {
    && p.secret in managed
    && (if p.MissingSecret? then p.secret !in values
        else
          && p.secret in values && p.key in managed[p.secret].keys && KeyIsFaulty(values[p.secret], p))
  }

  lemma KeyProblemMeans(secret: string, present: map<string, string>, key: string, p: StoreProblem)
    ensures p in KeyProblem(secret, present, key) <==>
            !p.MissingSecret? && p.secret == secret && p.key == key && KeyIsFaulty(present, p)
  {}

  lemma {:induction false} KeyProblemsMean(secret: string, present: map<string, string>, keys: seq<string>, p: StoreProblem)
    ensures p in KeyProblems(secret, present, keys) <==>
            !p.MissingSecret? && p.secret == secret && p.key in keys && KeyIsFaulty(present, p)
  {
    if keys != [] {
      KeyProblemMeans(secret, present, keys[|keys| - 1], p);
      KeyProblemsMean(secret, present, keys[..|keys| - 1], p);
      assert keys == keys[..|keys| - 1] + [keys[|keys| - 1]];
    }
  }

  lemma {:induction false} StoreProblemsMean(managed: Managed, values: StoreValues, names: seq<string>, p: StoreProblem)
    requires forall n | n in names :: n in managed
    ensures p in StoreProblems(managed, values, names) <==> p.secret in names && Faulty(managed, values, p)
  {
    if names != [] {
      var init, last := names[..|names| - 1], names[|names| - 1];
      assert names == init + [last];
      StoreProblemsMean(managed, values, init, p);
      if last in values {
        KeyProblemsMean(last, values[last], Keys(managed[last].keys.Keys), p);
      }
    }
  }

  /** A problem is reported exactly when a declared secret or key of the store has it. */
  lemma ReportedExactlyWhenFaulty(managed: Managed, store: string, values: StoreValues, p: StoreProblem)
    ensures p in StoreProblems(managed, values, NamesIn(managed, store)) <==>
            p.secret in managed && managed[p.secret].store == store && Faulty(managed, values, p)
  {
    StoreProblemsMean(managed, values, NamesIn(managed, store), p);
  }

  /** By secret, and within a secret by key. */
  predicate ProblemLe(p: StoreProblem, q: StoreProblem) {
    && StringLe(p.secret, q.secret)
    && (p.secret == q.secret && !p.MissingSecret? && !q.MissingSecret? ==> StringLe(p.key, q.key))
  }

  predicate InOrder(problems: seq<StoreProblem>) {
    forall i, j | 0 <= i < j < |problems| :: ProblemLe(problems[i], problems[j])
  }

  lemma OrderedJoin(a: seq<StoreProblem>, b: seq<StoreProblem>)
    requires InOrder(a) && InOrder(b)
    requires forall p, q | p in a && q in b :: ProblemLe(p, q)
    ensures InOrder(a + b)
  {
    forall i, j | 0 <= i < j < |a + b| ensures ProblemLe((a + b)[i], (a + b)[j]) {
      assert i < |a| ==> (a + b)[i] in a;
      assert j >= |a| ==> (a + b)[j] in b;
    }
  }

  lemma {:induction false} KeyProblemsInOrder(secret: string, present: map<string, string>, keys: seq<string>)
    requires forall i, j | 0 <= i < j < |keys| :: StringLe(keys[i], keys[j])
    ensures InOrder(KeyProblems(secret, present, keys))
  {
    if keys != [] {
      var init, last := keys[..|keys| - 1], keys[|keys| - 1];
      KeyProblemsInOrder(secret, present, init);
      forall p, q | p in KeyProblems(secret, present, init) && q in KeyProblem(secret, present, last)
        ensures ProblemLe(p, q)
      {
        KeyProblemsMean(secret, present, init, p);
        KeyProblemMeans(secret, present, last, q);
        var i :| 0 <= i < |init| && init[i] == p.key;
        assert StringLe(keys[i], keys[|keys| - 1]);
        StringLeTotal(secret, secret);
      }
      OrderedJoin(KeyProblems(secret, present, init), KeyProblem(secret, present, last));
    }
  }

  lemma SecretProblemsInOrder(managed: Managed, values: StoreValues, name: string)
    requires name in managed
    ensures InOrder(SecretProblems(managed, values, name))
    ensures forall p | p in SecretProblems(managed, values, name) :: p.secret == name
  {
    if name in values {
      var keys := Keys(managed[name].keys.Keys);
      KeyProblemsInOrder(name, values[name], keys);
      forall p | p in KeyProblems(name, values[name], keys) ensures p.secret == name {
        KeyProblemsMean(name, values[name], keys, p);
      }
    }
  }

  lemma {:induction false} StoreProblemsInOrder(managed: Managed, values: StoreValues, names: seq<string>)
    requires forall n | n in names :: n in managed
    requires forall i, j | 0 <= i < j < |names| :: StringLe(names[i], names[j]) && names[i] != names[j]
    ensures InOrder(StoreProblems(managed, values, names))
  {
    if names != [] {
      var init, last := names[..|names| - 1], names[|names| - 1];
      StoreProblemsInOrder(managed, values, init);
      SecretProblemsInOrder(managed, values, last);
      forall p, q | p in StoreProblems(managed, values, init) && q in SecretProblems(managed, values, last)
        ensures ProblemLe(p, q)
      {
        StoreProblemsMean(managed, values, init, p);
        var i :| 0 <= i < |init| && init[i] == p.secret;
        assert names[i] == p.secret && names[|names| - 1] == q.secret;
      }
      OrderedJoin(StoreProblems(managed, values, init), SecretProblems(managed, values, last));
    }
  }

  /** Problems are reported in the order of their secrets, and of the keys within a secret. */
  lemma ReportedInOrder(managed: Managed, store: string, values: StoreValues)
    ensures InOrder(StoreProblems(managed, values, NamesIn(managed, store)))
  {
    NamesAreOrdered(managed, store);
    StoreProblemsInOrder(managed, values, NamesIn(managed, store));
  }

  lemma NamesAreOrdered(managed: Managed, store: string)
    ensures var names := NamesIn(managed, store);
            forall i, j | 0 <= i < j < |names| :: StringLe(names[i], names[j]) && names[i] != names[j]
  {}

  /// A store just minted

  /** The key is the operator's to give, and the operator has not. */
  predicate Awaited(secret: ManagedSecret, existing: Option<StoreValues>, name: string, key: string) {
    && key in secret.keys && secret.keys[key].generator.None?
    && !(Held(existing, name).Some? && key in Held(existing, name).value && Usable(Held(existing, name).value[key]))
  }

  lemma MintedKeyProblem(
    managed: Managed, store: string, existing: Option<StoreValues>, draws: Draws, data: StoreValues, s: string, k: string)
    requires Minted(managed, store, None, MinterOf(managed, existing, draws), data) && Drawable(managed, draws)
    requires s in managed && managed[s].store == store && managed[s].kind.ValueKind? && k in managed[s].keys
    ensures s in data
    ensures k in data[s] && data[s][k] != ""
    ensures data[s][k] == PLACEHOLDER <==> Awaited(managed[s], existing, s, k)
  {
    var def := managed[s].keys[k];
    MintedValue(managed, store, existing, draws, data, s, k);
    if def.generator.Some? {
      GeneratedIsUsable(def.generator.value, def.length, draws.value(s, k));
    }
  }

  lemma FaultyWhenMinted(
    managed: Managed, store: string, existing: Option<StoreValues>, draws: Draws, data: StoreValues, p: StoreProblem)
    requires Minted(managed, store, None, MinterOf(managed, existing, draws), data) && Drawable(managed, draws)
    requires p.secret in managed && managed[p.secret].store == store && managed[p.secret].kind.ValueKind?
    requires !p.MissingSecret?
    ensures Faulty(managed, data, p) <==> p.PlaceholderKey? && Awaited(managed[p.secret], existing, p.secret, p.key)
  {
    if p.key in managed[p.secret].keys {
      MintedKeyProblem(managed, store, existing, draws, data, p.secret, p.key);
    }
  }

  lemma SecretWithKeysIsWritten(
    managed: Managed, store: string, existing: Option<StoreValues>, draws: Draws, data: StoreValues, s: string)
    requires Minted(managed, store, None, MinterOf(managed, existing, draws), data)
    requires s in managed && managed[s].store == store && managed[s].kind.ValueKind?
    ensures s in data <==> managed[s].keys.Keys != {}
  {
    if managed[s].keys.Keys != {} {
      var k :| k in managed[s].keys.Keys;
      MintedValue(managed, store, existing, draws, data, s, k);
    }
  }

  /** What it held if a certificate was there, and else the pair drawn. */
  function HeldAuthority(s: string, existing: Option<StoreValues>, draws: Draws): map<string, string> {
    if existing.Some? && Lookup(existing.value, s, CERT_KEY).Some? then existing.value[s]
    else if draws.ca(s).Some? then map[CERT_KEY := draws.ca(s).value.0, KEY_KEY := draws.ca(s).value.1]
    else map[]
  }

  /** What an authority holds once minted: what it held, with a certificate, or the pair drawn. */
  lemma MintedAuthority(
    managed: Managed, store: string, existing: Option<StoreValues>, draws: Draws, data: StoreValues, s: string)
    requires Minted(managed, store, None, MinterOf(managed, existing, draws), data)
    requires s in managed && managed[s].store == store && managed[s].kind.CaKind?
    ensures s in data && HeldAuthority(s, existing, draws) == data[s] && CERT_KEY in data[s]
  {
    var mint := MinterOf(managed, existing, draws);
    assert Selected(managed, store, None, s);
    assert Holds(data, s, mint(s));
    assert CERT_KEY in mint(s).value;
  }

  /** A declared key of an authority, over what it holds once minted. */
  predicate AuthorityProblem(secret: ManagedSecret, existing: Option<StoreValues>, draws: Draws, p: StoreProblem) {
    !p.MissingSecret? && p.key in secret.keys && KeyIsFaulty(HeldAuthority(p.secret, existing, draws), p)
  }

  /**
    After minting a whole store, a value secret with keys is reported for
    exactly the keys still waiting for an operator; one without keys is reported
    missing, since nothing is written for it. An authority is never missing, and
    is reported for the keys declared for it that its certificate, or what it
    held beside one, leaves open.
   */
  lemma MintedStoreProblems(
    managed: Managed, store: string, existing: Option<StoreValues>, draws: Draws, data: StoreValues, p: StoreProblem)
    requires Minted(managed, store, None, MinterOf(managed, existing, draws), data) && Drawable(managed, draws)
    requires p.secret in managed && managed[p.secret].store == store
    ensures p in StoreProblems(managed, data, NamesIn(managed, store)) <==>
            if managed[p.secret].kind.CaKind? then AuthorityProblem(managed[p.secret], existing, draws, p)
            else if p.MissingSecret? then managed[p.secret].keys.Keys == {}
            else p.PlaceholderKey? && Awaited(managed[p.secret], existing, p.secret, p.key)
  {
    ReportedExactlyWhenFaulty(managed, store, data, p);
    if managed[p.secret].kind.CaKind? {
      MintedAuthority(managed, store, existing, draws, data, p.secret);
    } else if p.MissingSecret? {
      SecretWithKeysIsWritten(managed, store, existing, draws, data, p.secret);
    } else {
      FaultyWhenMinted(managed, store, existing, draws, data, p);
    }
  }
}
