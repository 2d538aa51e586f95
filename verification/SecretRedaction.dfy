/** Redacting every known secret of an environment from a text (smoke/lib/config.py). */
module SecretRedaction {
  import opened Text
  import opened Replacement

  const SECRET_KEY_PARTS := ["KEY", "TOKEN", "SECRET", "WEBHOOK", "AUTH"]

  /** A variable: its name and its value. */
  type Item = (string, string)

  /** An environment in iteration order. */
  type Env = seq<Item>

  function Marker(key: string): string {
    "<redacted:" + key + ">"
  }

  /** The values that are treated as secrets. `upper` is `str.upper`. */
  predicate Qualifies(upper: string -> string, item: Item) {
    |item.1| >= 4 && exists k | 0 <= k < |SECRET_KEY_PARTS| :: Contains(upper(item.0), SECRET_KEY_PARTS[k])
  }

  function RedactAll(upper: string -> string, value: string, env: Env): string
    decreases |env|
  {
    if env == [] then value
    else
      var now := if Qualifies(upper, env[0]) then Replace(value, env[0].1, Marker(env[0].0)) else value;
      RedactAll(upper, now, env[1..])
  }

  /** The secrets of an environment, in its order. */
  function Secrets(upper: string -> string, env: Env): seq<Item> {
    if env == [] then []
    else (if Qualifies(upper, env[0]) then [env[0]] else []) + Secrets(upper, env[1..])
  }

  /** No secret is left in the text. */
  ghost predicate Clears(items: seq<Item>, t: string) {
    forall j | 0 <= j < |items| :: Lacks(t, items[j])
  }

  /** `redacted` */
  method Redacted(upper: string -> string, value: string, env: Env) returns (result: string)
    ensures result == RedactAll(upper, value, env)
    ensures var items := Secrets(upper, env);
      Detached(items) && MarkersClear(items) ==> Clears(items, result)
  {
    result := value;
    ClearedByLoop(upper, value, env);
    if value == "" {
      EmptyStaysEmpty(upper, env);
      return;
    }
    for n := 0 to |env|
      invariant RedactAll(upper, result, env[n..]) == RedactAll(upper, value, env)
    {
      assert env[n..][1..] == env[n + 1..];
      if Qualifies(upper, env[n]) {
        result := Replace(result, env[n].1, Marker(env[n].0));
      }
    }
  }

  lemma ClearedByLoop(upper: string -> string, value: string, env: Env)
    ensures var items := Secrets(upper, env);
      Detached(items) && MarkersClear(items) ==> Clears(items, RedactAll(upper, value, env))
  {
    ExactlyWhenMarkersClear(upper, env);
    assert AlwaysClears(upper, env) ==> ClearsFrom(upper, env, value);
  }

  lemma {:induction false} EmptyStaysEmpty(upper: string -> string, env: Env)
    ensures RedactAll(upper, "", env) == ""
  {
    if env != [] {
      EmptyStaysEmpty(upper, env[1..]);
    }
  }

  // ----- the secrets alone

  function Once(value: string, item: Item): string {
    Replace(value, item.1, Marker(item.0))
  }

  /** A loop over the items from the `n`-th on. */
  function RunFrom(step: (string, Item) -> string, value: string, items: seq<Item>, n: nat): string
    requires n <= |items|
    decreases |items| - n
  {
    if n == |items| then value else RunFrom(step, step(value, items[n]), items, n + 1)
  }

  /** The loop over the secrets from the `n`-th on. */
  function RedactFrom(value: string, items: seq<Item>, n: nat): string
    requires n <= |items|
  {
    RunFrom(Once, value, items, n)
  }

  lemma {:induction false} RunIdle(step: (string, Item) -> string, value: string, items: seq<Item>, n: nat, m: nat)
    requires n <= m <= |items| && forall i | n <= i < m :: step(value, items[i]) == value
    ensures RunFrom(step, value, items, n) == RunFrom(step, value, items, m)
    decreases m - n
  {
    if n < m {
      RunIdle(step, value, items, n + 1, m);
    }
  }

  lemma {:induction false} OnlySecretsCount(upper: string -> string, value: string, env: Env)
    ensures RedactAll(upper, value, env) == RedactFrom(value, Secrets(upper, env), 0)
    decreases |env|
  {
    if env != [] {
      SecretsHead(upper, env);
      if Qualifies(upper, env[0]) {
        OnlySecretsCount(upper, Once(value, env[0]), env[1..]);
        RedactHead(value, env[0], Secrets(upper, env[1..]));
      } else {
        OnlySecretsCount(upper, value, env[1..]);
      }
    }
  }

  lemma SecretsHead(upper: string -> string, env: Env)
    requires env != []
    ensures Secrets(upper, env) ==
      if Qualifies(upper, env[0]) then [env[0]] + Secrets(upper, env[1..]) else Secrets(upper, env[1..])
  {
  }

  lemma RedactHead(value: string, first: Item, rest: seq<Item>)
    ensures RedactFrom(value, [first] + rest, 0) == RedactFrom(Once(value, first), rest, 0)
  {
    WithoutTheFirst(Once(value, first), first, rest, 0);
  }

  lemma {:induction false} WithoutTheFirst(value: string, first: Item, items: seq<Item>, n: nat)
    requires n <= |items|
    ensures RedactFrom(value, [first] + items, n + 1) == RedactFrom(value, items, n)
    decreases |items| - n
  {
    if n < |items| {
      assert ([first] + items)[n + 1] == items[n];
      WithoutTheFirst(Replace(value, items[n].1, Marker(items[n].0)), first, items, n + 1);
    }
  }

  ghost predicate Proper(items: seq<Item>) {
    forall j | 0 <= j < |items| :: items[j].1 != ""
  }

  lemma {:induction false} SecretsAreProper(upper: string -> string, env: Env)
    ensures Proper(Secrets(upper, env))
  {
    if env != [] {
      SecretsAreProper(upper, env[1..]);
    }
  }

  /** No marker lies in a secret and no ends overlap. A marker may hold a secret. */
  ghost predicate Detached(items: seq<Item>) {
    forall j, k | 0 <= j < |items| && 0 <= k < |items| :: Off(items[j].1, Marker(items[k].0))
  }

  /** A secret without angle brackets is off every marker. */
  lemma WithoutBrackets(s: string, key: string)
    requires s != "" && '<' !in s && '>' !in s
    ensures Off(s, Marker(key))
  {
    var marker := Marker(key);
    assert marker[0] == '<' && marker[|marker| - 1] == '>';
    forall i | 0 <= i <= |s| ensures !(marker <= s[i..]) {
      if i < |s| {
        assert s[i..][0] == s[i] && s[i] in s;
      }
    }
    forall i | 0 < i < |s| ensures !(s[i..] <= marker) && !EndsWith(marker, s[..i]) {
      assert s[i..][0] == s[i] && s[i] in s && s[i - 1] in s;
      EndsInItsLast(marker, s[..i]);
      assert s[..i][i - 1] == s[i - 1];
    }
  }

  lemma PlainSecretsAreDetached(items: seq<Item>)
    requires Proper(items) && forall j | 0 <= j < |items| :: '<' !in items[j].1 && '>' !in items[j].1
    ensures Detached(items)
  {
    forall j, k | 0 <= j < |items| && 0 <= k < |items| ensures Off(items[j].1, Marker(items[k].0)) {
      WithoutBrackets(items[j].1, items[k].0);
    }
  }

  lemma EndsInItsLast(t: string, u: string)
    requires u != "" && t != ""
    ensures EndsWith(t, u) ==> t[|t| - 1] == u[|u| - 1]
  {
    if EndsWith(t, u) {
      assert t[|t| - |u|..][|u| - 1] == t[|t| - 1];
    }
  }

  // ----- borders in the text

  ghost predicate AllApart(items: seq<Item>, a: string, b: string) {
    forall j | 0 <= j < |items| :: Apart(a, b, items[j].1)
  }

  /** The loop works on the two sides of a border no secret lies across, and clears both or not. */
  lemma {:induction false} RedactSplits(items: seq<Item>, n: nat, a: string, b: string)
    requires n <= |items| && Proper(items) && Detached(items) && AllApart(items, a, b)
    ensures Clears(items, RedactFrom(a + b, items, n)) <==>
      Clears(items, RedactFrom(a, items, n)) && Clears(items, RedactFrom(b, items, n))
    decreases |items| - n
  {
    if n == |items| {
      ClearsSplits(items, a, b);
    } else {
      var p, marker := items[n].1, Marker(items[n].0);
      assert Apart(a, b, p);
      ReplaceSplits(a, b, p, marker);
      AllStayApart(items, n, a, b);
      RedactSplits(items, n + 1, Replace(a, p, marker), Replace(b, p, marker));
    }
  }

  lemma ClearsSplits(items: seq<Item>, a: string, b: string)
    requires Proper(items) && AllApart(items, a, b)
    ensures Clears(items, a + b) <==> Clears(items, a) && Clears(items, b)
  {
    forall j | 0 <= j < |items|
      ensures Lacks(a + b, items[j]) <==> Lacks(a, items[j]) && Lacks(b, items[j])
    {
      assert Apart(a, b, items[j].1);
      ContainsSplits(a, b, items[j].1);
    }
  }

  lemma AllStayApart(items: seq<Item>, n: nat, a: string, b: string)
    requires n < |items| && Proper(items) && Detached(items) && AllApart(items, a, b)
    ensures AllApart(items, Replace(a, items[n].1, Marker(items[n].0)), Replace(b, items[n].1, Marker(items[n].0)))
  {
    forall j | 0 <= j < |items|
      ensures Apart(Replace(a, items[n].1, Marker(items[n].0)), Replace(b, items[n].1, Marker(items[n].0)), items[j].1)
    {
      assert Apart(a, b, items[j].1) && Off(items[j].1, Marker(items[n].0));
      StayApart(a, b, items[n].1, Marker(items[n].0), items[j].1);
    }
  }

  // ----- when every secret is cleared from every text

  /** No secret before the `n`-th occurs in the text. */
  ghost predicate FreeUpTo(items: seq<Item>, n: nat, t: string)
    requires n <= |items|
  {
    forall i | 0 <= i < n :: Lacks(t, items[i])
  }

  ghost predicate Lacks(t: string, item: Item) {
    !Contains(t, item.1)
  }

  /** Some text makes the loop insert the marker of this secret: no earlier secret occurs in it. */
  ghost predicate Inserted(items: seq<Item>, k: int) {
    0 <= k < |items| && FreeUpTo(items, k, items[k].1)
  }

  /** What the later secrets make of this marker. */
  ghost function MarkerLater(items: seq<Item>, k: nat): string
    requires k < |items|
  {
    RedactFrom(Marker(items[k].0), items, k + 1)
  }

  /** Every marker that can be inserted is itself cleared of all secrets by the rest of the loop. This
      is a finite check on the environment. */
  ghost predicate MarkersClear(items: seq<Item>) {
    forall k | Inserted(items, k) :: Clears(items, MarkerLater(items, k))
  }

  /** What the loop makes of the two parts around a match, and of the marker between them. */
  lemma ClearedAround(items: seq<Item>, n: nat, t: string, x: string, u: string)
    requires n < |items| && Proper(items) && Detached(items) && Clears(items, MarkerLater(items, n))
    requires Replace(t, items[n].1, Marker(items[n].0)) ==
      x + (Marker(items[n].0) + Replace(u, items[n].1, Marker(items[n].0)))
    requires Clears(items, RedactFrom(x, items, n + 1)) && Clears(items, RedactFrom(u, items, n))
    ensures Clears(items, RedactFrom(t, items, n))
  {
    Assembled(items, n + 1, x, Marker(items[n].0), Replace(u, items[n].1, Marker(items[n].0)), n);
  }

  /** A text free of the secrets before the `n`-th is cleared by the rest of the loop. */
  lemma {:induction false} Cleared(items: seq<Item>, n: nat, t: string)
    requires n <= |items| && Proper(items) && Detached(items) && FreeUpTo(items, n, t) && MarkersClear(items)
    ensures Clears(items, RedactFrom(t, items, n))
    decreases |items| - n, |t|
  {
    if n == |items| {
    } else if !Contains(t, items[n].1) {
      NoMatchNoChange(t, items[n].1, Marker(items[n].0));
      assert Lacks(t, items[n]);
      Cleared(items, n + 1, t);
    } else {
      var x, u := FirstMatch(t, items[n].1, Marker(items[n].0));
      PartsAreFree(items, n, x, items[n].1, u);
      assert Lacks(x, items[n]) && Inserted(items, n);
      Cleared(items, n + 1, x);
      Cleared(items, n, u);
      ClearedAround(items, n, t, x, u);
    }
  }

  lemma PartsAreFree(items: seq<Item>, n: nat, x: string, p: string, u: string)
    requires n <= |items| && FreeUpTo(items, n, x + (p + u))
    ensures FreeUpTo(items, n, x) && FreeUpTo(items, n, p) && FreeUpTo(items, n, u)
  {
    var t := x + (p + u);
    assert t[0..|x|] == x && t[|x|..|x| + |p|] == p && t[|x| + |p|..|t|] == u;
    forall i | 0 <= i < n
      ensures Lacks(x, items[i]) && Lacks(p, items[i]) && Lacks(u, items[i])
    {
      assert Lacks(t, items[i]);
      NotInside(t, 0, |x|, items[i].1);
      NotInside(t, |x|, |x| + |p|, items[i].1);
      NotInside(t, |x| + |p|, |t|, items[i].1);
    }
  }

  lemma NotInside(t: string, lo: nat, hi: nat, s: string)
    requires lo <= hi <= |t| && !Contains(t, s)
    ensures !Contains(t[lo..hi], s)
  {
    if Contains(t[lo..hi], s) {
      ContainsInside(t, lo, hi, s);
    }
  }

  /** A text with a marker in it is cleared when its three parts are. */
  lemma Assembled(items: seq<Item>, n: nat, x: string, marker: string, y: string, k: nat)
    requires n <= |items| && k < |items| && Proper(items) && Detached(items) && marker == Marker(items[k].0)
    requires Clears(items, RedactFrom(x, items, n)) && Clears(items, RedactFrom(marker, items, n))
    requires Clears(items, RedactFrom(y, items, n))
    ensures Clears(items, RedactFrom(x + (marker + y), items, n))
  {
    forall j | 0 <= j < |items|
      ensures Apart(x, marker + y, items[j].1) && Apart(marker, y, items[j].1)
    {
      assert Off(items[j].1, Marker(items[k].0));
      MarkerIsApart(x, marker, y, items[j].1);
    }
    RedactSplits(items, n, marker, y);
    RedactSplits(items, n, x, marker + y);
  }

  /** A text without any secret is left as it is. */
  lemma NothingToRedact(items: seq<Item>, n: nat, m: nat, value: string)
    requires n <= m <= |items| && FreeUpTo(items, m, value)
    ensures RedactFrom(value, items, n) == RedactFrom(value, items, m)
  {
    forall i | n <= i < m ensures Once(value, items[i]) == value {
      assert Lacks(value, items[i]);
      NoMatchNoChange(value, items[i].1, Marker(items[i].0));
    }
    RunIdle(Once, value, items, n, m);
  }

  /** The same for the whole environment: redaction changes only texts with a secret in them. */
  lemma TextWithoutSecrets(upper: string -> string, value: string, env: Env)
    requires Clears(Secrets(upper, env), value)
    ensures RedactAll(upper, value, env) == value
  {
    var items := Secrets(upper, env);
    OnlySecretsCount(upper, value, env);
    NothingToRedact(items, 0, |items|, value);
  }

  lemma NoMatchNoChange(t: string, p: string, rep: string)
    requires !Contains(t, p)
    ensures Replace(t, p, rep) == t
  {
    SubNoMatch(MatchLiteral(p), rep, t);
  }

  /** What the loop makes of the secret itself: its marker, carried through the later secrets. */
  lemma SecretBecomesMarker(items: seq<Item>, k: nat)
    requires Proper(items) && Inserted(items, k)
    ensures RedactFrom(items[k].1, items, 0) == MarkerLater(items, k)
  {
    NothingToRedact(items, 0, k, items[k].1);
    WholeIsReplaced(items[k].1, Marker(items[k].0));
  }

  lemma WholeIsReplaced(p: string, rep: string)
    requires p != ""
    ensures Replace(p, p, rep) == rep
  {
    assert p[|p|..] == "" && SubAll(MatchLiteral(p), rep, "") == "";
  }

  // ----- the theorem

  ghost predicate ClearsFrom(upper: string -> string, env: Env, value: string) {
    Clears(Secrets(upper, env), RedactAll(upper, value, env))
  }

  /** Redaction is complete: no secret is left in any text. */
  ghost predicate AlwaysClears(upper: string -> string, env: Env) {
    forall value :: ClearsFrom(upper, env, value)
  }

  /** Redaction clears every text of every secret, if and only if it clears the markers it can insert.
      This holds for every environment, in any order, whose secrets are detached from the markers;
      those without angle brackets always are. */
  lemma ExactlyWhenMarkersClear(upper: string -> string, env: Env)
    ensures Detached(Secrets(upper, env)) ==> (AlwaysClears(upper, env) <==> MarkersClear(Secrets(upper, env)))
  {
    var items := Secrets(upper, env);
    SecretsAreProper(upper, env);
    if Detached(items) {
      if MarkersClear(items) {
        forall value ensures ClearsFrom(upper, env, value) {
          OnlySecretsCount(upper, value, env);
          Cleared(items, 0, value);
        }
      }
      if AlwaysClears(upper, env) {
        forall k | Inserted(items, k) ensures Clears(items, MarkerLater(items, k)) {
          SecretBecomesMarker(items, k);
          OnlySecretsCount(upper, items[k].1, env);
          assert ClearsFrom(upper, env, items[k].1);
        }
      }
    }
  }

  /** A secret is off its own marker and off those of later secrets, and cannot be read in them. */
  ghost predicate SafeMarkers(items: seq<Item>) {
    forall j, k | 0 <= j <= k < |items| :: SafeFrom(items[j], items[k])
  }

  ghost predicate SafeFrom(secret: Item, later: Item) {
    Off(secret.1, Marker(later.0)) && !Contains(Marker(later.0), secret.1)
  }

  /** Every text is cleared of every secret when the markers are safe; a later secret may touch an
      earlier marker in any way. */
  lemma RedactionIsComplete(upper: string -> string, env: Env)
    requires SafeMarkers(Secrets(upper, env))
    ensures AlwaysClears(upper, env)
  {
    SecretsAreProper(upper, env);
    forall value ensures ClearsFrom(upper, env, value) {
      OnlySecretsCount(upper, value, env);
      SafeRun(Secrets(upper, env), value);
    }
  }

  lemma SafeRun(items: seq<Item>, t: string)
    requires Proper(items) && SafeMarkers(items)
    ensures Clears(items, RedactFrom(t, items, 0))
  {
    var free := (m, u) => 0 <= m <= |items| && FreeUpTo(items, m, u);
    forall m, u | 0 <= m < |items| && free(m, u) ensures free(m + 1, Once(u, items[m])) {
      SafeSteps(items, m, u);
    }
    RunKeeps(Once, free, t, items, 0);
  }

  /** What every step keeps holds at the end. */
  lemma {:induction false} RunKeeps(
    step: (string, Item) -> string, inv: (int, string) -> bool, t: string, items: seq<Item>, n: nat)
    requires n <= |items| && inv(n, t)
    requires forall m, u | n <= m < |items| && inv(m, u) :: inv(m + 1, step(u, items[m]))
    ensures inv(|items|, RunFrom(step, t, items, n))
    decreases |items| - n
  {
    if n < |items| {
      RunKeeps(step, inv, step(t, items[n]), items, n + 1);
    }
  }

  lemma SafeSteps(items: seq<Item>, n: nat, t: string)
    requires n < |items| && Proper(items) && SafeMarkers(items) && FreeUpTo(items, n, t)
    ensures FreeUpTo(items, n + 1, Once(t, items[n]))
  {
    forall i | 0 <= i < n + 1 ensures Lacks(Once(t, items[n]), items[i]) {
      SafeStep(items, n, t, i);
    }
  }

  lemma SafeStep(items: seq<Item>, n: nat, t: string, i: nat)
    requires i <= n < |items| && Proper(items) && SafeMarkers(items) && FreeUpTo(items, n, t)
    ensures Lacks(Once(t, items[n]), items[i])
  {
    assert i < n ==> Lacks(t, items[i]);
    assert SafeFrom(items[i], items[n]);
    ReplaceRemoves(t, items[n].1, Marker(items[n].0), items[i].1);
  }

  // ----- over the environment itself

  /** A variable that holds a secret: its value has four characters or more, and its name in capitals
      has one of the five words in it. */
  ghost predicate HoldsSecret(upper: string -> string, item: Item) {
    && |item.1| >= 4
    && var name := upper(item.0);
       || Contains(name, "KEY") || Contains(name, "TOKEN") || Contains(name, "SECRET")
       || Contains(name, "WEBHOOK") || Contains(name, "AUTH")
  }

  lemma SecretsQualify(upper: string -> string, item: Item)
    ensures Qualifies(upper, item) <==> HoldsSecret(upper, item)
  {
    var name := upper(item.0);
    var parts := SECRET_KEY_PARTS;
    assert parts[0] == "KEY" && parts[1] == "TOKEN" && parts[2] == "SECRET"
      && parts[3] == "WEBHOOK" && parts[4] == "AUTH";
  }

  lemma {:induction false} SecretsOf(upper: string -> string, env: Env)
    ensures forall item :: item in Secrets(upper, env) <==> item in env && HoldsSecret(upper, item)
  {
    if env != [] {
      SecretsOf(upper, env[1..]);
      SecretsQualify(upper, env[0]);
      assert env == [env[0]] + env[1..];
    }
  }

  /** Every secret of the environment is off its own marker and off those of later secrets, and cannot
      be read in them. */
  ghost predicate SafeEnv(upper: string -> string, env: Env) {
    forall j, k | 0 <= j <= k < |env| && HoldsSecret(upper, env[j]) && HoldsSecret(upper, env[k]) ::
      SafeFrom(env[j], env[k])
  }

  lemma {:induction false} SafeSecrets(upper: string -> string, env: Env)
    requires SafeEnv(upper, env)
    ensures SafeMarkers(Secrets(upper, env))
  {
    if env != [] {
      SafeSecrets(upper, env[1..]);
      SecretsOf(upper, env[1..]);
      SecretsQualify(upper, env[0]);
      forall item | HoldsSecret(upper, env[0]) && item in Secrets(upper, env[1..]) ensures SafeFrom(env[0], item) {
        var k :| 0 <= k < |env[1..]| && env[1..][k] == item;
        assert env[k + 1] == item;
      }
    }
  }

  /** No secret of such an environment is left in any text. */
  lemma EverySecretGoes(upper: string -> string, value: string, env: Env, item: Item)
    requires SafeEnv(upper, env) && item in env && HoldsSecret(upper, item)
    ensures !Contains(RedactAll(upper, value, env), item.1)
  {
    var items := Secrets(upper, env);
    SafeSecrets(upper, env);
    RedactionIsComplete(upper, env);
    SecretsOf(upper, env);
    assert ClearsFrom(upper, env, value);
    var j :| 0 <= j < |items| && items[j] == item;
    assert Lacks(RedactAll(upper, value, env), items[j]);
  }

  /** An environment that holds no secret leaves every text as it is. */
  lemma {:induction false} NoSecretNoChange(upper: string -> string, value: string, env: Env)
    requires forall item | item in env :: !HoldsSecret(upper, item)
    ensures RedactAll(upper, value, env) == value
  {
    if env != [] {
      SecretsQualify(upper, env[0]);
      NoSecretNoChange(upper, value, env[1..]);
    }
  }

  /** A text that is the one secret becomes its marker, which names the variable. */
  lemma SecretIsNamed(upper: string -> string, item: Item)
    requires HoldsSecret(upper, item)
    ensures RedactAll(upper, item.1, [item]) == "<redacted:" + item.0 + ">"
  {
    SecretsQualify(upper, item);
    WholeIsReplaced(item.1, Marker(item.0));
    assert [item][1..] == [];
  }

  /** What surrounds the secret stays: the text before its first occurrence as it is, the text after it
      redacted in turn. */
  lemma SurroundingsStay(upper: string -> string, item: Item, a: string, b: string)
    requires HoldsSecret(upper, item)
    requires forall i | 0 <= i < |a| :: !(item.1 <= (a + (item.1 + b))[i..])
    ensures RedactAll(upper, a + (item.1 + b), [item])
      == a + (("<redacted:" + item.0 + ">") + RedactAll(upper, b, [item]))
  {
    SecretsQualify(upper, item);
    AfterTheFirst(a, item.1, b, Marker(item.0));
    assert [item][1..] == [];
  }

  lemma {:induction false} AfterTheFirst(a: string, p: string, b: string, rep: string)
    requires p != "" && forall i | 0 <= i < |a| :: !(p <= (a + (p + b))[i..])
    ensures Replace(a + (p + b), p, rep) == a + (rep + Replace(b, p, rep))
  {
    if a == "" {
      ReplaceFirst(p, b, rep);
      NothingBefore(p + b);
      NothingBefore(rep + Replace(b, p, rep));
    } else {
      var c, rest := a[0], a[1..];
      assert a == [c] + rest;
      NoneLater(c, rest, p, p + b);
      AfterTheFirst(rest, p, b, rep);
      OneMoreBefore(c, rest + (p + b), p, rep);
      Associate([c], rest, p + b);
      Associate([c], rest, rep + Replace(b, p, rep));
    }
  }

  lemma ReplaceFirst(p: string, b: string, rep: string)
    requires p != ""
    ensures Replace(p + b, p, rep) == rep + Replace(b, p, rep)
  {
    ReplaceHead(p + b, p, rep);
    assert (p + b)[|p|..] == b;
  }

  lemma OneMoreBefore(c: char, t: string, p: string, rep: string)
    requires p != "" && !(p <= [c] + t)
    ensures Replace([c] + t, p, rep) == [c] + Replace(t, p, rep)
  {
    ReplaceHead([c] + t, p, rep);
    assert ([c] + t)[1..] == t;
  }

  lemma NoneLater(c: char, rest: string, p: string, tail: string)
    requires forall i | 0 <= i < |rest| + 1 :: !(p <= (([c] + rest) + tail)[i..])
    ensures !(p <= [c] + (rest + tail))
    ensures forall i | 0 <= i < |rest| :: !(p <= (rest + tail)[i..])
  {
    var t := ([c] + rest) + tail;
    assert t[0..] == t == [c] + (rest + tail);
    forall i | 0 <= i < |rest| ensures !(p <= (rest + tail)[i..]) {
      assert t[i + 1..] == (rest + tail)[i..];
    }
  }

  /** For a single secret: it is always cleared if and only if it cannot be read in its marker. */
  lemma OneSecretExactly(upper: string -> string, item: Item)
    requires Qualifies(upper, item) && Off(item.1, Marker(item.0))
    ensures AlwaysClears(upper, [item]) <==> !Contains(Marker(item.0), item.1)
  {
    OneSecret(upper, item);
    ExactlyWhenMarkersClear(upper, [item]);
    var items := [item];
    assert Detached(items) && Inserted(items, 0);
    assert MarkerLater(items, 0) == Marker(item.0);
    assert Clears(items, Marker(item.0)) <==> !Contains(Marker(item.0), items[0].1);
  }

  lemma OneSecret(upper: string -> string, item: Item)
    requires Qualifies(upper, item)
    ensures Secrets(upper, [item]) == [item]
  {
    assert [item][1..] == [] && Secrets(upper, []) == [];
  }

  /** The condition on the ends is needed: whenever a secret is some text and the start of the marker of
      a later secret, that text before the later secret is completed to the first one, unless one of
      them is found earlier. */
  lemma OverlapCompletesASecret(first: Item, second: Item, a: string, b: string)
    requires first.1 == a + b && b <= Marker(second.0)
    requires second.1 != "" && !Contains(a + second.1, first.1)
    requires forall i | 0 <= i < |a| :: !(second.1 <= (a + second.1)[i..])
    ensures Contains(RedactFrom(a + second.1, [first, second], 0), first.1)
  {
    NoMatchNoChange(a + second.1, first.1, Marker(first.0));
    MatchAfter(a, second.1, Marker(second.0));
    TwoSteps(Once, a + second.1, first, second);
    StartsInside(a, b, Marker(second.0));
  }

  lemma TwoSteps(step: (string, Item) -> string, value: string, a: Item, b: Item)
    ensures RunFrom(step, value, [a, b], 0) == step(step(value, a), b)
  {
    var items := [a, b];
    assert RunFrom(step, step(value, a), items, 1) == RunFrom(step, step(step(value, a), b), items, 2);
  }

  lemma StartsInside(a: string, b: string, t: string)
    requires b <= t
    ensures Contains(a + t, a + b)
  {
    assert (a + t)[0..] == a + t && a + b <= a + t;
  }

  lemma {:induction false} MatchAfter(a: string, p: string, rep: string)
    requires p != "" && forall i | 0 <= i < |a| :: !(p <= (a + p)[i..])
    ensures Replace(a + p, p, rep) == a + rep
  {
    if a == "" {
      NothingBefore(p);
      NothingBefore(rep);
      WholeIsReplaced(p, rep);
    } else {
      var rest := a[1..];
      assert a == [a[0]] + rest && (a + p)[0..] == a + p;
      assert forall i | 0 <= i < |rest| :: (rest + p)[i..] == (a + p)[i + 1..];
      MatchAfter(rest, p, rep);
      OneCharBefore(a[0], rest, p, rep);
    }
  }

  lemma OneCharBefore(c: char, rest: string, p: string, rep: string)
    requires p != "" && !(p <= ([c] + rest) + p) && Replace(rest + p, p, rep) == rest + rep
    ensures Replace(([c] + rest) + p, p, rep) == ([c] + rest) + rep
  {
    Associate([c], rest, p);
    Associate([c], rest, rep);
    ReplaceHead([c] + (rest + p), p, rep);
    assert ([c] + (rest + p))[1..] == rest + p;
  }
}
