/** The fake platform's index of pending voice messages: two keys, one result (smoke/lib/e2e.py). */
module VoiceIndex {
  import opened Options

  datatype Scope = Scope(platform: string, chatId: string)

  datatype Voice = Voice(scope: Scope, voiceId: string, statusId: Option<string>, deleteIds: set<string>)

  type Key = (Scope, string)
  type Index = map<Key, Voice>

  function VoiceKey(v: Voice): Key { (v.scope, v.voiceId) }

  /** Every key a result is stored under. */
  function KeysOf(v: Voice): set<Key> {
    {VoiceKey(v)} + if v.statusId.Some? then {(v.scope, v.statusId.value)} else {}
  }

  /** The keys `cancel` pops, which take the scope from the caller. */
  function PoppedKeys(scope: Scope, v: Voice): set<Key> {
    {(scope, v.voiceId)} + if v.statusId.Some? then {(scope, v.statusId.value)} else {}
  }

  /** Every result is stored under exactly its own keys. */
  ghost predicate Valid(p: Index) {
    forall k | k in p :: k in KeysOf(p[k]) && forall j | j in KeysOf(p[k]) :: j in p && p[j] == p[k]
  }

  /** One entry per pending result, whatever it is stored under. */
  ghost function Live(p: Index): set<Key> {
    set k | k in p :: VoiceKey(p[k])
  }

  ghost function LiveIn(p: Index, scope: Scope): set<string> {
    set k | k in p && k.0 == scope :: p[k].voiceId
  }

  function NewVoice(scope: Scope, voiceId: string, statusId: string): Voice {
    Voice(scope, voiceId, Some(statusId), {voiceId, statusId})
  }

  function Seeded(p: Index, scope: Scope, voiceId: string, statusId: string): Index {
    var v := NewVoice(scope, voiceId, statusId);
    p[(scope, voiceId) := v][(scope, statusId) := v]
  }

  function Cancelled(p: Index, scope: Scope, replyId: string): Index {
    if (scope, replyId) in p then p - PoppedKeys(scope, p[(scope, replyId)]) else p
  }

  /** The index without one scope. */
  ghost function Outside(p: Index, scope: Scope): Index {
    map k | k in p && k.0 != scope :: p[k]
  }

  /** The live keys, the voice ids and the popped keys of a list of results. */
  ghost function VoiceKeys(results: seq<Voice>): set<Key> {
    set v | v in results :: VoiceKey(v)
  }

  ghost function VoiceIds(results: seq<Voice>): set<string> {
    set v | v in results :: v.voiceId
  }

  ghost function PoppedBy(scope: Scope, results: seq<Voice>): set<Key> {
    set v, k | v in results && k in PoppedKeys(scope, v) :: k
  }

  ghost predicate StoredIn(p: Index, scope: Scope, v: Voice) {
    exists k :: k in p && k.0 == scope && p[k] == v
  }

  /** `tuple(m.values())`, in no particular order. */
  method Values<K(==), V>(m: map<K, V>) returns (values: seq<V>)
    ensures |values| == |m|
    ensures forall v :: v in values <==> exists k :: k in m && m[k] == v
  {
    values := [];
    var keys := m.Keys;
    while keys != {}
      invariant keys <= m.Keys && |values| + |keys| == |m|
      invariant forall v :: v in values <==> exists k :: k in m && k !in keys && m[k] == v
      decreases keys
    {
      var k :| k in keys;
      keys := keys - {k};
      values := values + [m[k]];
    }
  }

  lemma OneMore(scope: Scope, results: seq<Voice>, v: Voice)
    ensures PoppedBy(scope, results + [v]) == PoppedBy(scope, results) + PoppedKeys(scope, v)
  {
    forall w ensures w in results + [v] <==> w in results || w == v { }
  }

  class FakePlatform {
    const name: string
    var pending: Index

    constructor (name: string)
      ensures this.name == name && pending == map[]
    {
      this.name := name;
      pending := map[];
    }

    method SeedPendingVoice(chatId: string, voiceId: string, statusId: string)
      modifies this
      ensures pending == Seeded(old(pending), Scope(name, chatId), voiceId, statusId)
    {
      var scope := Scope(name, chatId);
      var result := NewVoice(scope, voiceId, statusId);
      pending := pending[(scope, voiceId) := result];
      pending := pending[(scope, statusId) := result];
    }

    /** Cancelling names what to delete: the status alone when it was the status that was
        replied to, both messages otherwise. */
    method CancelPendingVoice(scope: Scope, replyId: string) returns (result: Option<Voice>)
      modifies this
      ensures pending == Cancelled(old(pending), scope, replyId)
      ensures result.None? <==> (scope, replyId) !in old(pending)
      ensures result.Some? ==>
        var found := old(pending)[(scope, replyId)];
        && result.value == found.(deleteIds := result.value.deleteIds)
        && result.value.deleteIds ==
             if found.statusId == Some(replyId) then {replyId}
             else {found.voiceId} + if found.statusId.Some? then {found.statusId.value} else {}
    {
      if (scope, replyId) !in pending {
        return None;
      }
      var found := pending[(scope, replyId)];
      pending := pending - {(scope, found.voiceId)};
      if found.statusId.Some? {
        pending := pending - {(scope, found.statusId.value)};
      }
      var ids := {found.voiceId} + if found.statusId.Some? then {found.statusId.value} else {};
      if Some(replyId) == found.statusId {
        ids := {replyId};
      }
      result := Some(found.(deleteIds := ids));
    }

    /** Every pending result comes back once. */
    method CancelAllPendingVoices() returns (results: seq<Voice>)
      modifies this
      ensures pending == map[]
      ensures |results| == |Live(old(pending))| && VoiceKeys(results) == Live(old(pending))
      ensures forall v | v in results :: v in old(pending).Values
    {
      var found: map<Key, Voice> := map[];
      var keys := pending.Keys;
      while keys != {}
        invariant keys <= pending.Keys && pending == old(pending)
        invariant found.Keys == set k | k in pending && k !in keys :: VoiceKey(pending[k])
        invariant forall key | key in found :: VoiceKey(found[key]) == key && found[key] in pending.Values
        decreases keys
      {
        var k :| k in keys;
        keys := keys - {k};
        found := found[VoiceKey(pending[k]) := pending[k]];
      }
      results := Values(found);
      assert found.Keys == Live(pending);
      pending := map[];
    }

    /** Every voice id of the scope comes back once, and the keys of the results go. */
    method CancelPendingVoicesInScope(scope: Scope) returns (results: seq<Voice>)
      modifies this
      ensures |results| == |LiveIn(old(pending), scope)| && VoiceIds(results) == LiveIn(old(pending), scope)
      ensures forall v | v in results :: StoredIn(old(pending), scope, v)
      ensures pending == old(pending) - PoppedBy(scope, results)
    {
      var found: map<string, Voice> := map[];
      var keys := pending.Keys;
      while keys != {}
        invariant keys <= pending.Keys && pending == old(pending)
        invariant found.Keys == set k | k in pending && k !in keys && k.0 == scope :: pending[k].voiceId
        invariant forall id | id in found :: found[id].voiceId == id && StoredIn(pending, scope, found[id])
        decreases keys
      {
        var k :| k in keys;
        keys := keys - {k};
        if k.0 == scope {
          found := found[pending[k].voiceId := pending[k]];
        }
      }
      results := Values(found);
      assert found.Keys == LiveIn(pending, scope);
      PopAll(scope, results);
    }

    method PopAll(scope: Scope, results: seq<Voice>)
      modifies this
      ensures pending == old(pending) - PoppedBy(scope, results)
    {
      for n := 0 to |results|
        invariant pending == old(pending) - PoppedBy(scope, results[..n])
      {
        OneMore(scope, results[..n], results[n]);
        assert results[..n + 1] == results[..n] + [results[n]];
        pending := pending - {(scope, results[n].voiceId)};
        if results[n].statusId.Some? {
          pending := pending - {(scope, results[n].statusId.value)};
        }
      }
      assert results[..|results|] == results;
    }

    method PendingVoiceCount() returns (count: nat)
      ensures count == |Live(pending)|
    {
      var seen: set<Key> := {};
      var keys := pending.Keys;
      while keys != {}
        invariant keys <= pending.Keys
        invariant seen == set k | k in pending && k !in keys :: VoiceKey(pending[k])
        decreases keys
      {
        var k :| k in keys;
        keys := keys - {k};
        seen := seen + {VoiceKey(pending[k])};
      }
      assert seen == Live(pending);
      count := |seen|;
    }
  }

  // ----- the invariant

  /** The new entry does not take one key of a pending result and leave the other. */
  ghost predicate TakesWholeEntries(p: Index, scope: Scope, voiceId: string, statusId: string) {
    forall id | id in {voiceId, statusId} && (scope, id) in p ::
      KeysOf(p[(scope, id)]) <= {(scope, voiceId), (scope, statusId)}
  }

  /** Seeding keeps the index valid exactly when no pending result loses just one of its keys. */
  lemma SeedKeepsValid(p: Index, scope: Scope, voiceId: string, statusId: string)
    requires Valid(p)
    ensures Valid(Seeded(p, scope, voiceId, statusId)) <==> TakesWholeEntries(p, scope, voiceId, statusId)
  {
    var q := Seeded(p, scope, voiceId, statusId);
    var mine := {(scope, voiceId), (scope, statusId)};
    assert KeysOf(NewVoice(scope, voiceId, statusId)) == mine;
    if TakesWholeEntries(p, scope, voiceId, statusId) {
      forall k | k in q
        ensures k in KeysOf(q[k]) && forall j | j in KeysOf(q[k]) :: j in q && q[j] == q[k]
      {
        if k !in mine {
          UntouchedEntry(p, scope, voiceId, statusId, k);
        }
      }
    } else {
      var id :| id in {voiceId, statusId} && (scope, id) in p && !(KeysOf(p[(scope, id)]) <= mine);
      var j :| j in KeysOf(p[(scope, id)]) && j !in mine;
      assert q[j] == p[(scope, id)] != q[(scope, id)];
    }
  }

  lemma UntouchedEntry(p: Index, scope: Scope, voiceId: string, statusId: string, k: Key)
    requires Valid(p) && TakesWholeEntries(p, scope, voiceId, statusId)
    requires k in p && k !in {(scope, voiceId), (scope, statusId)}
    ensures KeysOf(p[k]) !! {(scope, voiceId), (scope, statusId)}
  {
    forall j | j in KeysOf(p[k])
      ensures j !in {(scope, voiceId), (scope, statusId)}
    {
      Owner(p, k, j);
      assert k in KeysOf(p[j]);
    }
  }

  lemma Owner(p: Index, k: Key, j: Key)
    requires Valid(p) && k in p && j in KeysOf(p[k])
    ensures j in p && p[j] == p[k] && k in KeysOf(p[j])
  {
  }

  lemma SameLiveKeySameVoice(p: Index, j: Key, k: Key)
    requires Valid(p) && j in p && k in p && VoiceKey(p[j]) == VoiceKey(p[k])
    ensures p[j] == p[k]
  {
    assert VoiceKey(p[j]) in KeysOf(p[j]) && VoiceKey(p[k]) in KeysOf(p[k]);
  }

  /** Cancelling under either key removes exactly the two keys of that one result. */
  lemma CancelRemovesBothKeys(p: Index, scope: Scope, replyId: string)
    requires Valid(p) && (scope, replyId) in p
    ensures var v := p[(scope, replyId)];
      && v.scope == scope
      && Cancelled(p, scope, replyId) == p - KeysOf(v)
      && Valid(Cancelled(p, scope, replyId))
      && VoiceKey(v) in Live(p)
      && Live(Cancelled(p, scope, replyId)) == Live(p) - {VoiceKey(v)}
      && (forall k | k in KeysOf(v) :: k.0 == scope && Cancelled(p, scope, k.1) == Cancelled(p, scope, replyId))
  {
    var v := p[(scope, replyId)];
    assert (scope, replyId) in KeysOf(v);
    var q := Cancelled(p, scope, replyId);
    assert PoppedKeys(scope, v) == KeysOf(v);
    assert forall j | j in KeysOf(v) :: j in p && p[j] == v;
    forall k | k in q
      ensures k in KeysOf(q[k]) && forall j | j in KeysOf(q[k]) :: j in q && q[j] == q[k]
    {
      forall j | j in KeysOf(p[k]) ensures j !in KeysOf(v) {
        Owner(p, k, j);
      }
    }
    forall key
      ensures key in Live(q) <==> key in Live(p) && key != VoiceKey(v)
    {
      if key in Live(q) {
        var k :| k in q && VoiceKey(q[k]) == key;
        assert k in p;
        if key == VoiceKey(v) {
          SameLiveKeySameVoice(p, k, (scope, replyId));
        }
      }
      if key in Live(p) && key != VoiceKey(v) {
        var k :| k in p && VoiceKey(p[k]) == key;
        assert k in q;
      }
    }
  }

  /** Popping the keys of every result of a scope leaves the other scopes exactly as they were
      and nothing of this one. */
  lemma ScopeCancelIsExact(p: Index, scope: Scope, results: seq<Voice>)
    requires Valid(p)
    requires forall v | v in results :: StoredIn(p, scope, v)
    requires VoiceIds(results) == LiveIn(p, scope)
    ensures p - PoppedBy(scope, results) == Outside(p, scope)
    ensures Valid(Outside(p, scope))
  {
    forall k | k in p
      ensures k in PoppedBy(scope, results) <==> k.0 == scope
    {
      if k.0 == scope {
        PoppedInScope(p, scope, results, k);
      }
    }
    OutsideIsValid(p, scope);
  }

  lemma PoppedInScope(p: Index, scope: Scope, results: seq<Voice>, k: Key)
    requires Valid(p)
    requires forall v | v in results :: StoredIn(p, scope, v)
    requires VoiceIds(results) == LiveIn(p, scope)
    requires k in p && k.0 == scope
    ensures k in PoppedBy(scope, results)
  {
    assert p[k].voiceId in LiveIn(p, scope);
    var v :| v in results && v.voiceId == p[k].voiceId;
    assert StoredIn(p, scope, v);
    var j :| j in p && j.0 == scope && p[j] == v;
    assert j in KeysOf(p[j]) && k in KeysOf(p[k]);
    SameLiveKeySameVoice(p, j, k);
    assert k in PoppedKeys(scope, v);
  }

  // ----- conservation over runs

  datatype Op =
    | Seed(scope: Scope, voiceId: string, statusId: string)
    | Cancel(scope: Scope, replyId: string)
    | CancelAll
    | CancelScope(scope: Scope)

  ghost function Apply(p: Index, op: Op): Index {
    match op
    case Seed(scope, v, s) => Seeded(p, scope, v, s)
    case Cancel(scope, id) => Cancelled(p, scope, id)
    case CancelAll => map[]
    case CancelScope(scope) => Outside(p, scope)
  }

  /** The results the operation hands back, by voice key. */
  ghost function HandedBack(p: Index, op: Op): set<Key> {
    match op
    case Seed(_, _, _) => {}
    case Cancel(scope, id) => if (scope, id) in p then {VoiceKey(p[(scope, id)])} else {}
    case CancelAll => Live(p)
    case CancelScope(scope) => LiveKeysIn(p, scope)
  }

  ghost predicate Fresh(p: Index, op: Op) {
    op.Seed? ==> (op.scope, op.voiceId) !in p && (op.scope, op.statusId) !in p
  }

  ghost function After(ops: seq<Op>): Index {
    if ops == [] then map[] else Apply(After(ops[..|ops| - 1]), ops[|ops| - 1])
  }

  ghost predicate FreshRun(ops: seq<Op>) {
    forall n | 0 <= n < |ops| :: Fresh(After(ops[..n]), ops[n])
  }

  ghost function SeededBy(op: Op): multiset<Key> {
    if op.Seed? then multiset{(op.scope, op.voiceId)} else multiset{}
  }

  /** Every result ever seeded, as often as it was. */
  ghost function AllSeeded(ops: seq<Op>): multiset<Key> {
    if ops == [] then multiset{}
    else AllSeeded(ops[..|ops| - 1]) + SeededBy(ops[|ops| - 1])
  }

  /** Every result ever handed back, as often as it was. */
  ghost function AllHandedBack(ops: seq<Op>): multiset<Key> {
    if ops == [] then multiset{}
    else
      var front := ops[..|ops| - 1];
      AllHandedBack(front) + multiset(HandedBack(After(front), ops[|ops| - 1]))
  }

  ghost function LiveKeysIn(p: Index, scope: Scope): set<Key> {
    set key | key in Live(p) && key.0 == scope
  }

  lemma KeysMatchScope(p: Index)
    requires Valid(p)
    ensures forall k | k in p :: p[k].scope == k.0
  {
    forall k | k in p ensures p[k].scope == k.0 { assert k in KeysOf(p[k]); }
  }

  lemma InsideLive(p: Index, scope: Scope, key: Key)
    requires forall k | k in p :: p[k].scope == k.0
    ensures key in LiveKeysIn(p, scope) <==> key.0 == scope && key.1 in LiveIn(p, scope)
  {
    if key in Live(p) && key.0 == scope {
      var k :| k in p && VoiceKey(p[k]) == key;
      assert k.0 == scope && p[k].voiceId == key.1;
    }
    if key.0 == scope && key.1 in LiveIn(p, scope) {
      var k :| k in p && k.0 == scope && p[k].voiceId == key.1;
      assert VoiceKey(p[k]) == key;
    }
  }

  lemma OutsideLive(p: Index, scope: Scope)
    requires forall k | k in p :: p[k].scope == k.0
    ensures Live(p) - LiveKeysIn(p, scope) == Live(Outside(p, scope))
  {
    var outside := Outside(p, scope);
    forall key
      ensures key in Live(outside) <==> key in Live(p) && key.0 != scope
    {
      if key in Live(outside) {
        var k :| k in outside && VoiceKey(outside[k]) == key;
        assert k in p && p[k] == outside[k];
      }
      if key in Live(p) && key.0 != scope {
        var k :| k in p && VoiceKey(p[k]) == key;
        assert k in outside && outside[k] == p[k];
      }
    }
  }

  /** The results of a scoped cancel are the pending ones of the scope. */
  lemma ScopeResults(p: Index, scope: Scope, results: seq<Voice>)
    requires Valid(p)
    requires forall v | v in results :: StoredIn(p, scope, v)
    requires VoiceIds(results) == LiveIn(p, scope)
    ensures VoiceKeys(results) == LiveKeysIn(p, scope)
  {
    KeysMatchScope(p);
    forall v | v in results ensures v.scope == scope {
      assert StoredIn(p, scope, v);
    }
    forall key ensures key in VoiceKeys(results) <==> key in LiveKeysIn(p, scope) {
      InsideLive(p, scope, key);
      if key.0 == scope && key.1 in VoiceIds(results) {
        var v :| v in results && v.voiceId == key.1;
        assert VoiceKey(v) == key;
      }
    }
  }

  lemma SeedAddsOne(p: Index, scope: Scope, voiceId: string, statusId: string)
    requires Valid(p) && (scope, voiceId) !in p && (scope, statusId) !in p
    ensures Valid(Seeded(p, scope, voiceId, statusId))
    ensures (scope, voiceId) !in Live(p)
    ensures Live(Seeded(p, scope, voiceId, statusId)) == Live(p) + {(scope, voiceId)}
  {
    SeedKeepsValid(p, scope, voiceId, statusId);
    var q := Seeded(p, scope, voiceId, statusId);
    forall k | k in p ensures VoiceKey(p[k]) in p { assert VoiceKey(p[k]) in KeysOf(p[k]); }
    SeededKeys(p, scope, voiceId, statusId);
    forall key ensures key in Live(q) <==> key in Live(p) || key == (scope, voiceId) {
      LiveOfExtension(p, q, key, (scope, voiceId));
    }
  }

  /** Adding entries of one voice adds its key, and keeps the others. */
  lemma LiveOfExtension(p: Index, q: Index, key: Key, added: Key)
    requires forall k | k in p :: k in q && q[k] == p[k]
    requires forall k | k in q && k !in p :: VoiceKey(q[k]) == added
    requires added in q && VoiceKey(q[added]) == added
    ensures key in Live(q) <==> key in Live(p) || key == added
  {
    if key in Live(q) {
      var k :| k in q && VoiceKey(q[k]) == key;
      assert k in p ==> VoiceKey(p[k]) == key;
    }
    if key in Live(p) {
      var k :| k in p && VoiceKey(p[k]) == key;
      assert VoiceKey(q[k]) == key;
    }
  }

  lemma SeededKeys(p: Index, scope: Scope, voiceId: string, statusId: string)
    requires (scope, voiceId) !in p && (scope, statusId) !in p
    ensures var q := Seeded(p, scope, voiceId, statusId);
      && (forall k | k in p :: k in q && q[k] == p[k])
      && (forall k | k in q && k !in p :: VoiceKey(q[k]) == (scope, voiceId))
      && (scope, voiceId) in q && VoiceKey(q[(scope, voiceId)]) == (scope, voiceId)
  {
  }

  /** What an operation seeds and what it finds is what it hands back and what it leaves. */
  lemma StepConserves(p: Index, op: Op)
    requires Valid(p) && Fresh(p, op)
    ensures Valid(Apply(p, op))
    ensures multiset(Live(p)) + SeededBy(op) == multiset(HandedBack(p, op)) + multiset(Live(Apply(p, op)))
  {
    match op {
      case Seed(scope, v, s) => SeedAddsOne(p, scope, v, s);
      case Cancel(scope, id) =>
        if (scope, id) in p {
          CancelRemovesBothKeys(p, scope, id);
        }
      case CancelAll => assert Live(map[]) == {};
      case CancelScope(scope) =>
        KeysMatchScope(p);
        OutsideLive(p, scope);
        OutsideIsValid(p, scope);
    }
  }

  /** Over any run with fresh ids the index stays valid, and every result ever seeded has either been
      handed back, as often as it was seeded, or is still pending. */
  lemma {:induction false} Conservation(ops: seq<Op>)
    requires FreshRun(ops)
    ensures Valid(After(ops))
    ensures AllSeeded(ops) == AllHandedBack(ops) + multiset(Live(After(ops)))
  {
    if ops != [] {
      var front, op := ops[..|ops| - 1], ops[|ops| - 1];
      FreshPrefix(ops);
      Conservation(front);
      StepConserves(After(front), op);
      Balance(AllSeeded(front), AllHandedBack(front), multiset(Live(After(front))), SeededBy(op),
              multiset(HandedBack(After(front), op)), multiset(Live(After(ops))));
    }
  }

  lemma Balance(
    seeded: multiset<Key>, back: multiset<Key>, live: multiset<Key>,
    more: multiset<Key>, gone: multiset<Key>, now: multiset<Key>)
    requires seeded == back + live && live + more == gone + now
    ensures seeded + more == (back + gone) + now
  {
    assert forall k :: live[k] + more[k] == (live + more)[k] == (gone + now)[k] == gone[k] + now[k];
  }

  lemma FreshPrefix(ops: seq<Op>)
    requires FreshRun(ops) && ops != []
    ensures FreshRun(ops[..|ops| - 1]) && Fresh(After(ops[..|ops| - 1]), ops[|ops| - 1])
  {
    var front := ops[..|ops| - 1];
    assert forall n | 0 <= n < |front| :: front[..n] == ops[..n];
  }

  lemma OutsideIsValid(p: Index, scope: Scope)
    requires Valid(p)
    ensures Valid(Outside(p, scope))
  {
    forall k | k in p && k.0 != scope
      ensures forall j | j in KeysOf(p[k]) :: j.0 == k.0
    {
      assert k in KeysOf(p[k]);
    }
  }

  // ----- what a pending result says

  /** The result is the one this operation seeded: both of its messages are to be deleted. */
  ghost predicate SeededAs(op: Op, k: Key, v: Voice) {
    && op.Seed? && k.0 == op.scope && k.1 in {op.voiceId, op.statusId}
    && v == Voice(op.scope, op.voiceId, Some(op.statusId), {op.voiceId, op.statusId})
  }

  /** Over any run, fresh ids or not, every pending result is as some operation of the run seeded it
      under that key. So the bulk cancels, which hand pending results back, name both messages. */
  lemma {:induction false} PendingAreAsSeeded(ops: seq<Op>, k: Key)
    requires k in After(ops)
    ensures exists n :: 0 <= n < |ops| && SeededAs(ops[n], k, After(ops)[k])
  {
    var front, op := ops[..|ops| - 1], ops[|ops| - 1];
    if op.Seed? && k.0 == op.scope && k.1 in {op.voiceId, op.statusId} {
      assert SeededAs(ops[|front|], k, After(ops)[k]);
    } else {
      PendingAreAsSeeded(front, k);
      var n :| 0 <= n < |front| && SeededAs(front[n], k, After(front)[k]);
      assert ops[n] == front[n] && After(ops)[k] == After(front)[k];
    }
  }
}
