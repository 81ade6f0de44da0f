/**
  The environment variables that carry a store's values: their names
  (cli/src/domain/secrets.rs) and when two names can be the same.
 */
module EnvNames {
  import opened Strings

  predicate AsciiAlphanumeric(c: char) {
    'a' <= c <= 'z' || 'A' <= c <= 'Z' || '0' <= c <= '9'
  }

  function Uppercase(c: char): char {
    if 'a' <= c <= 'z' then c - 'a' + 'A' else c
  }

  function EnvChar(c: char): (r: char)
    ensures 'A' <= r <= 'Z' || '0' <= r <= '9' || r == '_'
  {
    if AsciiAlphanumeric(c) then Uppercase(c) else '_'
  }

  function EnvComponent(part: string): (r: string)
    ensures |r| == |part|
    ensures forall i | 0 <= i < |r| :: 'A' <= r[i] <= 'Z' || '0' <= r[i] <= '9' || r[i] == '_'
  {
    seq(|part|, i requires 0 <= i < |part| => EnvChar(part[i]))
  }

  const LOWER := "abcdefghijklmnopqrstuvwxyz"
  const UPPER := "ABCDEFGHIJKLMNOPQRSTUVWXYZ"
  const DIGITS := "0123456789"

  lemma LettersInOrder(i: nat)
    requires i < 26
    ensures |LOWER| == |UPPER| == 26 && LOWER[i] == 'a' + i as char && UPPER[i] == 'A' + i as char
  {}

  lemma DigitsInOrder(i: nat)
    requires i < 10
    ensures |DIGITS| == 10 && DIGITS[i] == '0' + i as char
  {}

  /** Letters become upper case, digits stay, and everything else becomes an underscore. */
  lemma EnvCharMeans(c: char, i: nat)
    ensures i < |LOWER| && c == LOWER[i] ==> i < |UPPER| && EnvChar(c) == UPPER[i]
    ensures c in UPPER || c in DIGITS ==> EnvChar(c) == c
    ensures c !in LOWER && c !in UPPER && c !in DIGITS ==> EnvChar(c) == '_'
  {
    if i < 26 {
      LettersInOrder(i);
    }
    if c in UPPER {
      var k: nat :| k < |UPPER| && UPPER[k] == c;
      LettersInOrder(k);
    }
    if c in DIGITS {
      var k: nat :| k < |DIGITS| && DIGITS[k] == c;
      DigitsInOrder(k);
    }
    if AsciiAlphanumeric(c) {
      AlphanumericIsListed(c);
    }
  }

  lemma AlphanumericIsListed(c: char)
    requires AsciiAlphanumeric(c)
    ensures c in LOWER || c in UPPER || c in DIGITS
  {
    if 'a' <= c <= 'z' {
      LettersInOrder((c - 'a') as nat);
      assert LOWER[(c - 'a') as nat] == c;
    } else if 'A' <= c <= 'Z' {
      LettersInOrder((c - 'A') as nat);
      assert UPPER[(c - 'A') as nat] == c;
    } else {
      DigitsInOrder((c - '0') as nat);
      assert DIGITS[(c - '0') as nat] == c;
    }
  }

  const SEPARATOR := "__"
  const ENV_PREFIX := "CATA_SECRET_"

  function EnvVarName(store: string, secret: string, key: string): string {
    ENV_PREFIX + (EnvComponent(store) + (SEPARATOR + (EnvComponent(secret) + (SEPARATOR + EnvComponent(key)))))
  }

  predicate SeparatorAt(s: string, i: nat) {
    i + 1 < |s| && s[i] == '_' && s[i + 1] == '_'
  }

  predicate NoneInside(part: string) {
    forall i | 0 <= i < |part| :: !SeparatorAt(part, i)
  }

  /** Parts a separator can follow without blurring: no separator inside, no underscore at the end. */
  predicate Separable(part: string) {
    NoneInside(part) && (part != "" ==> part[|part| - 1] != '_')
  }

  /** Parts that can follow one: no separator inside, no underscore at the start. */
  predicate Unled(part: string) {
    NoneInside(part) && (part != "" ==> part[0] != '_')
  }

  lemma SeparableEnds(part: string)
    requires Separable(part)
    ensures EndsAtSeparator(part, SEPARATOR)
  {
    var s := part + SEPARATOR;
    forall i: nat | i < |part| ensures !StandsAt(s, SEPARATOR, i) {
      assert !SeparatorAt(part, i);
      assert s[i..i + 2] == [s[i], s[i + 1]];
    }
  }

  lemma SplitsAtSeparator(a: string, x: string, b: string, y: string)
    requires Separable(a) && Separable(b)
    requires a + (SEPARATOR + x) == b + (SEPARATOR + y)
    ensures a == b && x == y
  {
    SeparableEnds(a);
    SeparableEnds(b);
    SplitsOneWay(a, x, b, y, SEPARATOR);
  }

  /// Exactly the names that tell their parts

  predicate OneSeparator(a: string, b: string) {
    forall i: nat | i < |a + (SEPARATOR + b)| :: SeparatorAt(a + (SEPARATOR + b), i) ==> i == |a|
  }

  lemma SeparatorsAre(a: string, b: string, i: nat)
    ensures SeparatorAt(a + (SEPARATOR + b), i) <==>
            || i == |a|
            || (i < |a| && SeparatorAt(a, i))
            || (i + 1 == |a| && a[i] == '_')
            || (i == |a| + 1 && b != "" && b[0] == '_')
            || (i >= |a| + 2 && SeparatorAt(b, i - |a| - 2))
  {}

  lemma OneSeparatorExactly(a: string, b: string)
    ensures OneSeparator(a, b) <==> Separable(a) && Unled(b)
  {
    var s := a + (SEPARATOR + b);
    if OneSeparator(a, b) {
      forall i | 0 <= i < |a| ensures !SeparatorAt(a, i) { SeparatorsAre(a, b, i); }
      if a != "" { SeparatorsAre(a, b, |a| - 1); }
      forall i | 0 <= i < |b| ensures !SeparatorAt(b, i) { SeparatorsAre(a, b, i + |a| + 2); }
      SeparatorsAre(a, b, |a| + 1);
    } else {
      var i: nat :| i < |s| && SeparatorAt(s, i) && i != |a|;
      SeparatorsAre(a, b, i);
    }
  }

  /** Letters, digits and underscores: what normalising leaves alone. */
  predicate Normal(s: string) {
    forall i | 0 <= i < |s| :: EnvChar(s[i]) == s[i]
  }

  lemma NormalStays(s: string)
    requires Normal(s)
    ensures EnvComponent(s) == s
  {}

  lemma EnvCharAgain(c: char)
    ensures EnvChar(EnvChar(c)) == EnvChar(c)
  {}

  lemma ComponentIsNormal(part: string)
    ensures Normal(EnvComponent(part))
  {
    forall i | 0 <= i < |part| ensures EnvChar(EnvComponent(part)[i]) == EnvComponent(part)[i] {
      EnvCharAgain(part[i]);
    }
  }

  /** What follows the store and its separator. */
  function Tail(secret: string, key: string): string {
    EnvComponent(secret) + (SEPARATOR + EnvComponent(key))
  }

  lemma TailIsNormal(secret: string, key: string)
    ensures Normal(Tail(secret, key))
  {
    ComponentIsNormal(secret);
    ComponentIsNormal(key);
  }

  lemma CutAt(s: string, i: nat)
    requires Normal(s) && SeparatorAt(s, i)
    ensures s == s[..i] + (SEPARATOR + s[i + 2..])
    ensures EnvComponent(s[..i]) == s[..i] && EnvComponent(s[i + 2..]) == s[i + 2..]
  {
    assert s[i..i + 2] == SEPARATOR;
    NormalStays(s[..i]);
    NormalStays(s[i + 2..]);
  }

  /** Cut at any separator, the name is that of two other parts. */
  lemma EveryCutIsASecret(store: string, secret: string, key: string, i: nat)
    requires SeparatorAt(Tail(secret, key), i)
    ensures var u := Tail(secret, key);
            && EnvComponent(u[..i]) == u[..i] && EnvComponent(u[i + 2..]) == u[i + 2..]
            && EnvVarName(store, u[..i], u[i + 2..]) == EnvVarName(store, secret, key)
  {
    TailIsNormal(secret, key);
    CutAt(Tail(secret, key), i);
  }

  lemma SameTail(store: string, secret: string, key: string, secret2: string, key2: string)
    ensures EnvVarName(store, secret, key) == EnvVarName(store, secret2, key2) <==> Tail(secret, key) == Tail(secret2, key2)
  {
    var c := ENV_PREFIX + (EnvComponent(store) + SEPARATOR);
    assert EnvVarName(store, secret, key) == c + Tail(secret, key);
    assert EnvVarName(store, secret2, key2) == c + Tail(secret2, key2);
    assert (c + Tail(secret, key))[|c|..] == Tail(secret, key) && (c + Tail(secret2, key2))[|c|..] == Tail(secret2, key2);
  }

  /** Whatever secret and key of the store the variable could also be, it is the same two parts, normalised. */
  ghost predicate TellsParts(store: string, secret: string, key: string) {
    forall secret2, key2 | EnvVarName(store, secret2, key2) == EnvVarName(store, secret, key) ::
      EnvComponent(secret2) == EnvComponent(secret) && EnvComponent(key2) == EnvComponent(key)
  }

  lemma SameCut(a: string, x: string, b: string, y: string)
    requires a + (SEPARATOR + x) == b + (SEPARATOR + y) && |a| == |b|
    ensures a == b && x == y
  {
    var s := a + (SEPARATOR + x);
    assert a == s[..|a|] && b == s[..|a|] && x == s[|a| + 2..] && y == s[|a| + 2..];
  }

  lemma OneSeparatorTells(store: string, secret: string, key: string, secret2: string, key2: string)
    requires OneSeparator(EnvComponent(secret), EnvComponent(key))
    requires EnvVarName(store, secret2, key2) == EnvVarName(store, secret, key)
    ensures EnvComponent(secret2) == EnvComponent(secret) && EnvComponent(key2) == EnvComponent(key)
  {
    SameTail(store, secret, key, secret2, key2);
    SeparatorsAre(EnvComponent(secret2), EnvComponent(key2), |secret2|);
    SameCut(EnvComponent(secret), EnvComponent(key), EnvComponent(secret2), EnvComponent(key2));
  }

  /** Among the secrets of one store, a name tells its parts exactly when no separator stands in them or is made at their edges. */
  lemma TellsPartsExactly(store: string, secret: string, key: string)
    ensures TellsParts(store, secret, key) <==> Separable(EnvComponent(secret)) && Unled(EnvComponent(key))
  {
    var a, b, u := EnvComponent(secret), EnvComponent(key), Tail(secret, key);
    OneSeparatorExactly(a, b);
    if TellsParts(store, secret, key) {
      forall i: nat | i < |u| && SeparatorAt(u, i) ensures i == |a| {
        EveryCutIsASecret(store, secret, key, i);
        assert |EnvComponent(u[..i])| == |a|;
      }
    }
    if OneSeparator(a, b) {
      forall secret2, key2 | EnvVarName(store, secret2, key2) == EnvVarName(store, secret, key)
        ensures EnvComponent(secret2) == a && EnvComponent(key2) == b
      {
        OneSeparatorTells(store, secret, key, secret2, key2);
      }
    }
  }

  lemma SameParts(store: string, secret: string, key: string, secret2: string, key2: string)
    requires EnvComponent(secret) == EnvComponent(secret2) && EnvComponent(key) == EnvComponent(key2)
    ensures EnvVarName(store, secret, key) == EnvVarName(store, secret2, key2)
  {}

  /** A separator inside a part is one more place to cut: `a`/`b__c` and `a__b`/`c`. */
  lemma SeparatorInsideCollides(store: string, a: string, b: string, c: string)
    ensures EnvVarName(store, a, b + (SEPARATOR + c)) == EnvVarName(store, a + (SEPARATOR + b), c)
  {
    var ea, eb, ec := EnvComponent(a), EnvComponent(b), EnvComponent(c);
    assert EnvComponent(b + (SEPARATOR + c)) == eb + (SEPARATOR + ec);
    assert EnvComponent(a + (SEPARATOR + b)) == ea + (SEPARATOR + eb);
    var u, i := Tail(a, b + (SEPARATOR + c)), |a| + 2 + |b|;
    assert u[..i] == ea + (SEPARATOR + eb) && u[i + 2..] == ec;
    EveryCutIsASecret(store, a, b + (SEPARATOR + c), i);
    SameParts(store, a + (SEPARATOR + b), c, u[..i], u[i + 2..]);
  }

  /** So is punctuation at an edge: `a.`/`b` and `a`/`.b`. */
  lemma EdgeCollides(store: string, a: string, b: string, c: char)
    requires EnvChar(c) == '_'
    ensures EnvVarName(store, a + [c], b) == EnvVarName(store, a, [c] + b)
  {
    var u := Tail(a + [c], b);
    assert u[..|a|] == EnvComponent(a) && u[|a| + 2..] == EnvComponent([c] + b);
    EveryCutIsASecret(store, a + [c], b, |a|);
    SameParts(store, a, [c] + b, u[..|a|], u[|a| + 2..]);
  }

  /// Among the secrets of all stores

  /** Whatever store, secret and key the variable could also be, they are the same three parts, normalised. */
  ghost predicate TellsAll(store: string, secret: string, key: string) {
    forall store2, secret2, key2 | EnvVarName(store2, secret2, key2) == EnvVarName(store, secret, key) ::
      EnvComponent(store2) == EnvComponent(store) && EnvComponent(secret2) == EnvComponent(secret)
      && EnvComponent(key2) == EnvComponent(key)
  }

  function Whole(store: string, secret: string, key: string): string {
    EnvComponent(store) + (SEPARATOR + Tail(secret, key))
  }

  lemma SameWhole(store: string, secret: string, key: string, store2: string, secret2: string, key2: string)
    ensures EnvVarName(store, secret, key) == EnvVarName(store2, secret2, key2) <==>
            Whole(store, secret, key) == Whole(store2, secret2, key2)
  {
    var a, b := Whole(store, secret, key), Whole(store2, secret2, key2);
    assert a == (ENV_PREFIX + a)[|ENV_PREFIX|..] && b == (ENV_PREFIX + b)[|ENV_PREFIX|..];
  }

  lemma WholeRegroups(store: string, secret: string, key: string)
    ensures Whole(store, secret, key) == Tail(store, secret) + (SEPARATOR + EnvComponent(key))
  {}

  /** Cut at a separator before the key's, the name is that of another store. */
  lemma EveryCutIsAStore(store: string, secret: string, key: string, i: nat)
    requires SeparatorAt(Tail(store, secret), i)
    ensures var u := Tail(store, secret);
            && EnvComponent(u[..i]) == u[..i] && EnvComponent(u[i + 2..]) == u[i + 2..]
            && EnvVarName(u[..i], u[i + 2..], key) == EnvVarName(store, secret, key)
  {
    var u := Tail(store, secret);
    TailIsNormal(store, secret);
    CutAt(u, i);
    assert Tail(u[..i], u[i + 2..]) == u;
    WholeRegroups(store, secret, key);
    WholeRegroups(u[..i], u[i + 2..], key);
    SameWhole(store, secret, key, u[..i], u[i + 2..], key);
  }

  lemma TellingHasOneCut(store: string, secret: string, key: string)
    requires TellsAll(store, secret, key)
    ensures OneSeparator(EnvComponent(store), EnvComponent(secret))
  {
    var u := Tail(store, secret);
    forall i: nat | i < |u| && SeparatorAt(u, i) ensures i == |store| {
      EveryCutIsAStore(store, secret, key, i);
      assert |EnvComponent(u[..i])| == |EnvComponent(store)|;
    }
  }

  /** A separator behind the store's own is the key's, but for the middle of four underscores. */
  lemma NextSeparatorIsTheKeys(store: string, secret: string, key: string, i: nat)
    requires Separable(EnvComponent(store)) && Unled(EnvComponent(secret))
    requires OneSeparator(EnvComponent(secret), EnvComponent(key))
    requires SeparatorAt(Whole(store, secret, key), i)
    ensures i == |store| || i == |store| + 2 + |secret| || (secret == "" && i == |store| + 1)
  {
    SeparatorsAre(EnvComponent(store), Tail(secret, key), i);
  }

  lemma TwoSeparators(store: string, secret: string, key: string)
    ensures SeparatorAt(Whole(store, secret, key), |store|)
    ensures SeparatorAt(Whole(store, secret, key), |store| + 2 + |secret|)
  {
    SeparatorsAre(EnvComponent(secret), EnvComponent(key), |secret|);
    SeparatorsAre(EnvComponent(store), Tail(secret, key), |store|);
    SeparatorsAre(EnvComponent(store), Tail(secret, key), |store| + 2 + |secret|);
  }

  /** All three parts keep separators apart. */
  predicate KeepApart(c: string, a: string, b: string) {
    Separable(c) && Unled(a) && Separable(a) && Unled(b)
  }

  lemma KeptApartTells(store: string, secret: string, key: string, store2: string, secret2: string, key2: string)
    requires KeepApart(EnvComponent(store), EnvComponent(secret), EnvComponent(key))
    requires EnvVarName(store2, secret2, key2) == EnvVarName(store, secret, key)
    ensures EnvComponent(store2) == EnvComponent(store) && EnvComponent(secret2) == EnvComponent(secret)
    ensures EnvComponent(key2) == EnvComponent(key)
  {
    SameWhole(store, secret, key, store2, secret2, key2);
    OneSeparatorExactly(EnvComponent(secret), EnvComponent(key));
    TwoSeparators(store2, secret2, key2);
    NextSeparatorIsTheKeys(store, secret, key, |store2|);
    NextSeparatorIsTheKeys(store, secret, key, |store2| + 2 + |secret2|);
    SameCut(EnvComponent(store), Tail(secret, key), EnvComponent(store2), Tail(secret2, key2));
    SameCut(EnvComponent(secret), EnvComponent(key), EnvComponent(secret2), EnvComponent(key2));
  }

  /** A name tells store, secret and key exactly when no separator stands in them or is made at their edges. */
  lemma TellsAllExactly(store: string, secret: string, key: string)
    ensures TellsAll(store, secret, key) <==> KeepApart(EnvComponent(store), EnvComponent(secret), EnvComponent(key))
  {
    if TellsAll(store, secret, key) {
      TellingHasOneCut(store, secret, key);
      OneSeparatorExactly(EnvComponent(store), EnvComponent(secret));
      TellsPartsExactly(store, secret, key);
    }
    if KeepApart(EnvComponent(store), EnvComponent(secret), EnvComponent(key)) {
      forall store2, secret2, key2 | EnvVarName(store2, secret2, key2) == EnvVarName(store, secret, key)
        ensures EnvComponent(store2) == EnvComponent(store) && EnvComponent(secret2) == EnvComponent(secret)
        ensures EnvComponent(key2) == EnvComponent(key)
      {
        KeptApartTells(store, secret, key, store2, secret2, key2);
      }
    }
  }

  /**
    Two names whose stores and secrets are separable are told apart whatever
    their keys.
   */
  lemma NameDeterminesParts(
    store: string, secret: string, key: string, store2: string, secret2: string, key2: string)
    requires Separable(EnvComponent(store)) && Separable(EnvComponent(store2))
    requires Separable(EnvComponent(secret)) && Separable(EnvComponent(secret2))
    ensures EnvVarName(store, secret, key) == EnvVarName(store2, secret2, key2) <==>
            && EnvComponent(store) == EnvComponent(store2)
            && EnvComponent(secret) == EnvComponent(secret2)
            && EnvComponent(key) == EnvComponent(key2)
  {
    SameWhole(store, secret, key, store2, secret2, key2);
    if EnvVarName(store, secret, key) == EnvVarName(store2, secret2, key2) {
      SplitsAtSeparator(EnvComponent(store), Tail(secret, key), EnvComponent(store2), Tail(secret2, key2));
      SplitsAtSeparator(EnvComponent(secret), EnvComponent(key), EnvComponent(secret2), EnvComponent(key2));
    }
  }
}
