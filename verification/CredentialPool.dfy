/** A provider's pool of keys, stored as one comma-joined setting (admin_routes.py, credentials.py). */
module CredentialPool {
  import opened Text

  const MASKED_SECRET := "********"

  datatype AddReply =
    | AddLocked
    | KeyIsEmpty
    | AlreadyConfigured(several: bool)
    | AddRejected
    | Added(added: seq<string>, count: nat, skipped: nat)

  datatype DeleteReply =
    | DeleteLocked
    | OutOfRange
    | DeleteRejected
    | Deleted(removed: string, count: nat)

  /** The submitted keys that are new, each once, in the order they were pasted. */
  function NewKeys(keys: seq<string>, submitted: seq<string>): (added: seq<string>)
    ensures |added| <= |submitted|
  {
    if submitted == [] then []
    else
      var added := NewKeys(keys, submitted[..|submitted| - 1]);
      var candidate := submitted[|submitted| - 1];
      if candidate in keys || candidate in added then added else added + [candidate]
  }

  function Without(keys: seq<string>, index: nat): seq<string>
    requires index < |keys|
  {
    keys[..index] + keys[index + 1..]
  }

  /** The loop of `add_credential_key`. */
  method Collect(keys: seq<string>, submitted: seq<string>) returns (added: seq<string>)
    ensures added == NewKeys(keys, submitted)
  {
    added := [];
    for n := 0 to |submitted|
      invariant added == NewKeys(keys, submitted[..n])
    {
      assert submitted[..n + 1][..n] == submitted[..n];
      var candidate := submitted[n];
      if candidate in keys || candidate in added {
        continue;
      }
      added := added + [candidate];
    }
    assert submitted[..|submitted|] == submitted;
  }

  /** One credential setting. `locked` is a value that comes from the process environment. */
  class Pool {
    var value: string
    const locked: bool

    constructor (value: string, locked: bool)
      ensures this.value == value && this.locked == locked
    {
      this.value, this.locked := value, locked;
    }

    /** The keys in use: the parsed setting. */
    function Keys(): seq<string>
      reads this
    {
      Fields(value)
    }

    /** `add_credential_key`; `accepted` is the answer of the config write. */
    method Add(key: string, accepted: bool) returns (reply: AddReply)
      modifies this
      ensures reply.AddLocked? <==> locked
      ensures reply.KeyIsEmpty? <==> !locked && Fields(key) == []
      ensures reply.AlreadyConfigured? <==>
        !locked && Fields(key) != [] && forall i | 0 <= i < |Fields(key)| :: Fields(key)[i] in old(Keys())
      ensures reply.AlreadyConfigured? ==> (reply.several <==> |Fields(key)| > 1)
      ensures reply.AddRejected? ==> !accepted
      ensures reply.Added? ==>
        && accepted && reply.added == NewKeys(old(Keys()), Fields(key))
        && Keys() == Step(old(Keys()), AddOp(key, true))
        && reply.count == |old(Keys())| + |reply.added|
        && |reply.added| + reply.skipped == |Fields(key)|
      ensures value == if locked then old(value) else StepText(old(value), AddOp(key, accepted))
    {
      if locked {
        return AddLocked;
      }
      var submitted := Fields(key);
      if submitted == [] {
        return KeyIsEmpty;
      }
      var keys := Fields(value);
      var added := Collect(keys, submitted);
      NewKeysAre(keys, submitted);
      if added == [] {
        return AlreadyConfigured(|submitted| != 1);
      }
      if !accepted {
        return AddRejected;
      }
      StepRoundTrip(value, AddOp(key, accepted));
      value := Stored(value, Format(keys + added));
      reply := Added(added, |keys + added|, |submitted| - |added|);
    }

    /** `delete_credential_key` */
    method Delete(index: int, accepted: bool) returns (reply: DeleteReply)
      modifies this
      ensures reply.DeleteLocked? <==> locked
      ensures reply.OutOfRange? <==> !locked && !(0 <= index < |old(Keys())|)
      ensures reply.DeleteRejected? <==> !locked && 0 <= index < |old(Keys())| && !accepted
      ensures reply.Deleted? ==>
        && 0 <= index < |old(Keys())| && reply.removed == old(Keys())[index]
        && Keys() == Step(old(Keys()), DeleteOp(index, true))
        && reply.count == |old(Keys())| - 1
      ensures value == if locked then old(value) else StepText(old(value), DeleteOp(index, accepted))
    {
      if locked {
        return DeleteLocked;
      }
      var keys := Fields(value);
      if index < 0 || index >= |keys| {
        return OutOfRange;
      }
      if !accepted {
        return DeleteRejected;
      }
      var left := keys[..index] + keys[index + 1..];
      StepRoundTrip(value, DeleteOp(index, accepted));
      value := Stored(value, Format(left));
      reply := Deleted(keys[index], |left|);
    }
  }

  // ----- the list the pool stands for

  /** New keys are clean, distinct, submitted, and none of them was there; and none is missed. */
  lemma {:induction false} NewKeysAre(keys: seq<string>, submitted: seq<string>)
    ensures Distinct(NewKeys(keys, submitted))
    ensures forall k :: k in NewKeys(keys, submitted) <==> k in submitted && k !in keys
    ensures NewKeys(keys, submitted) == [] <==> forall i | 0 <= i < |submitted| :: submitted[i] in keys
  {
    if submitted != [] {
      var front, last := submitted[..|submitted| - 1], submitted[|submitted| - 1];
      NewKeysAre(keys, front);
      assert submitted == front + [last];
      if NewKeys(keys, submitted) != [] {
        assert NewKeys(keys, submitted)[0] in NewKeys(keys, submitted);
      }
    }
  }

  lemma {:induction false} NewKeysClean(keys: seq<string>, submitted: seq<string>)
    requires CleanFields(submitted)
    ensures CleanFields(NewKeys(keys, submitted))
  {
    if submitted != [] {
      NewKeysClean(keys, submitted[..|submitted| - 1]);
    }
  }

  /** Adding to a duplicate-free pool is a stable deduplication of the pool and the paste. */
  lemma {:induction false} AddingDeduplicates(keys: seq<string>, submitted: seq<string>)
    requires Distinct(keys)
    ensures keys + NewKeys(keys, submitted) == Dedup(keys + submitted)
  {
    if submitted == [] {
      DedupOfDistinct(keys);
      assert keys + [] == keys;
    } else {
      var front, last := submitted[..|submitted| - 1], submitted[|submitted| - 1];
      AddingDeduplicates(keys, front);
      assert (keys + submitted)[..|keys + submitted| - 1] == keys + front;
    }
  }

  // ----- runs

  datatype Op = AddOp(key: string, accepted: bool) | DeleteOp(index: int, accepted: bool)

  /** What the edit is for: the list it asks an unlocked pool to become. */
  function Edited(keys: seq<string>, op: Op): seq<string> {
    match op
    case AddOp(key, accepted) => if accepted then keys + NewKeys(keys, Fields(key)) else keys
    case DeleteOp(index, accepted) => if accepted && 0 <= index < |keys| then Without(keys, index) else keys
  }

  /** What the list becomes: a write that would leave the mask as the only key is not made. */
  function Step(keys: seq<string>, op: Op): seq<string> {
    if Edited(keys, op) == [MASKED_SECRET] then keys else Edited(keys, op)
  }

  /** What the stored text becomes: a write that changes no key is not asked for, and one that equals
      the mask is skipped. */
  function StepText(value: string, op: Op): string {
    var keys := Fields(value);
    if Edited(keys, op) == keys then value else Stored(value, Format(Edited(keys, op)))
  }

  /** A write of a secret setting: the mask stands for "leave it". */
  function Stored(value: string, text: string): string {
    if text == MASKED_SECRET then value else text
  }

  /** The list the edits ask for. */
  function Intended(keys: seq<string>, ops: seq<Op>): seq<string> {
    if ops == [] then keys else Edited(Intended(keys, ops[..|ops| - 1]), ops[|ops| - 1])
  }

  function Run(keys: seq<string>, ops: seq<Op>): seq<string> {
    if ops == [] then keys else Step(Run(keys, ops[..|ops| - 1]), ops[|ops| - 1])
  }

  function RunText(value: string, ops: seq<Op>): string {
    if ops == [] then value else StepText(RunText(value, ops[..|ops| - 1]), ops[|ops| - 1])
  }

  lemma EditedClean(keys: seq<string>, op: Op)
    requires CleanFields(keys)
    ensures CleanFields(Edited(keys, op))
  {
    if op.AddOp? {
      FieldsClean(op.key);
      NewKeysClean(keys, Fields(op.key));
    }
  }

  /** The text refines the list: after any run, parsing what is stored gives the list that the
      same edits make of the list parsed at the start. */
  lemma {:induction false} RunRefines(value: string, ops: seq<Op>)
    ensures Fields(RunText(value, ops)) == Run(Fields(value), ops)
  {
    if ops != [] {
      RunRefines(value, ops[..|ops| - 1]);
      StepRoundTrip(RunText(value, ops[..|ops| - 1]), ops[|ops| - 1]);
    }
  }

  lemma StepRoundTrip(value: string, op: Op)
    ensures Fields(StepText(value, op)) == Step(Fields(value), op)
  {
    var keys := Fields(value);
    FieldsClean(value);
    EditedClean(keys, op);
    FieldsRoundTrip(Edited(keys, op));
    OnlyTheMask(Edited(keys, op));
  }

  /** The only clean list written as the mask is the mask alone. */
  lemma OnlyTheMask(keys: seq<string>)
    requires CleanFields(keys)
    ensures Format(keys) == MASKED_SECRET <==> keys == [MASKED_SECRET]
  {
    FieldsRoundTrip(keys);
    MaskIsClean();
    FieldsRoundTrip([MASKED_SECRET]);
  }

  lemma MaskIsClean()
    ensures CleanField(MASKED_SECRET)
  {
  }

  /** The edit asks for the mask as the only key, and is dropped. */
  ghost predicate Dropped(keys: seq<string>, op: Op) {
    Edited(keys, op) == [MASKED_SECRET] && keys != [MASKED_SECRET]
  }

  /** The pool follows the edits all along if and only if none of them is dropped. */
  lemma EditsAreHonoured(keys: seq<string>, ops: seq<Op>)
    ensures (forall n | 0 <= n <= |ops| :: Run(keys, ops[..n]) == Intended(keys, ops[..n]))
      <==> (forall n | 0 <= n < |ops| :: !Dropped(Run(keys, ops[..n]), ops[n]))
  {
    if forall n | 0 <= n < |ops| :: !Dropped(Run(keys, ops[..n]), ops[n]) {
      forall n | 0 <= n <= |ops| ensures Run(keys, ops[..n]) == Intended(keys, ops[..n]) {
        HonouredUpTo(keys, ops, n);
      }
    } else {
      var n :| 0 <= n < |ops| && Dropped(Run(keys, ops[..n]), ops[n]);
      RunStep(keys, ops, n);
      assert Run(keys, ops[..n + 1]) == Run(keys, ops[..n]) != Edited(Run(keys, ops[..n]), ops[n]);
      assert Run(keys, ops[..n]) == Intended(keys, ops[..n]) ==>
        Run(keys, ops[..n + 1]) != Intended(keys, ops[..n + 1]);
    }
  }

  lemma RunStep(keys: seq<string>, ops: seq<Op>, n: nat)
    requires n < |ops|
    ensures Run(keys, ops[..n + 1]) == Step(Run(keys, ops[..n]), ops[n])
    ensures Intended(keys, ops[..n + 1]) == Edited(Intended(keys, ops[..n]), ops[n])
  {
    assert ops[..n + 1][..n] == ops[..n];
  }

  lemma {:induction false} HonouredUpTo(keys: seq<string>, ops: seq<Op>, n: nat)
    requires n <= |ops| && forall k | 0 <= k < |ops| :: !Dropped(Run(keys, ops[..k]), ops[k])
    ensures Run(keys, ops[..n]) == Intended(keys, ops[..n])
  {
    if n > 0 {
      HonouredUpTo(keys, ops, n - 1);
      RunStep(keys, ops, n - 1);
    }
  }

  /** Adding the mask to an empty pool is answered as an addition and stores nothing. */
  lemma AddedMaskIsDropped()
    ensures Dropped([], AddOp("********", true)) && Step([], AddOp("********", true)) == []
  {
    MaskIsClean();
    TrimOfTight(IsSpace, MASKED_SECRET);
    OneKeyAdded([], MASKED_SECRET);
    assert [] + [MASKED_SECRET] == [MASKED_SECRET];
  }

  lemma StepDistinct(keys: seq<string>, op: Op)
    requires Distinct(keys)
    ensures Distinct(Step(keys, op))
  {
    if op.AddOp? {
      AppendDistinct(keys, Fields(op.key));
    } else if op.accepted && 0 <= op.index < |keys| {
      DeletedIsGone(keys, op.index);
    }
  }

  lemma AppendDistinct(keys: seq<string>, submitted: seq<string>)
    requires Distinct(keys)
    ensures Distinct(keys + NewKeys(keys, submitted))
  {
    AddingDeduplicates(keys, submitted);
    DedupFacts(keys + submitted);
  }

  /** A duplicate-free pool stays duplicate-free. */
  lemma {:induction false} RunDistinct(keys: seq<string>, ops: seq<Op>)
    requires Distinct(keys)
    ensures Distinct(Run(keys, ops))
  {
    if ops != [] {
      RunDistinct(keys, ops[..|ops| - 1]);
      StepDistinct(Run(keys, ops[..|ops| - 1]), ops[|ops| - 1]);
    }
  }

  /** `a` is tried before `b`. */
  ghost predicate Before(keys: seq<string>, a: string, b: string) {
    exists i, j :: 0 <= i < j < |keys| && keys[i] == a && keys[j] == b
  }

  lemma StepKeepsOrder(keys: seq<string>, op: Op, a: string, b: string)
    requires Distinct(keys) && Before(keys, a, b) && a in Step(keys, op) && b in Step(keys, op)
    ensures Before(Step(keys, op), a, b)
  {
    if Step(keys, op) != keys {
      if op.DeleteOp? {
        DeletedIsGone(keys, op.index);
        DeleteKeepsOrder(keys, op.index, a, b);
      } else {
        AppendKeepsOrder(keys, NewKeys(keys, Fields(op.key)), a, b);
      }
    }
  }

  lemma AppendKeepsOrder(keys: seq<string>, more: seq<string>, a: string, b: string)
    requires Before(keys, a, b)
    ensures Before(keys + more, a, b)
  {
    var i, j :| 0 <= i < j < |keys| && keys[i] == a && keys[j] == b;
    assert (keys + more)[i] == a && (keys + more)[j] == b;
  }

  lemma DeleteKeepsOrder(keys: seq<string>, d: nat, a: string, b: string)
    requires d < |keys| && Before(keys, a, b) && keys[d] != a && keys[d] != b
    ensures Before(Without(keys, d), a, b)
  {
    var i, j :| 0 <= i < j < |keys| && keys[i] == a && keys[j] == b;
    var now := Without(keys, d);
    var i', j' := if i < d then i else i - 1, if j < d then j else j - 1;
    assert now[i'] == a && now[j'] == b;
  }

  lemma DeletedIsGone(keys: seq<string>, index: nat)
    requires Distinct(keys) && index < |keys|
    ensures keys[index] !in Without(keys, index) && Distinct(Without(keys, index))
  {
  }

  /** Keys that are never deleted keep the order in which they are tried, over any run. */
  lemma {:induction false} RunKeepsOrder(keys: seq<string>, ops: seq<Op>, a: string, b: string)
    requires Distinct(keys) && Before(keys, a, b)
    requires forall n | 0 <= n <= |ops| :: a in Run(keys, ops[..n]) && b in Run(keys, ops[..n])
    ensures Before(Run(keys, ops), a, b)
  {
    if ops != [] {
      var front := ops[..|ops| - 1];
      assert forall n | 0 <= n <= |front| :: front[..n] == ops[..n];
      assert ops[..|ops|] == ops;
      RunKeepsOrder(keys, front, a, b);
      RunDistinct(keys, front);
      StepKeepsOrder(Run(keys, front), ops[|ops| - 1], a, b);
    }
  }

  /** Deleting the key just appended undoes adding it, unless the mask is the only other key; and the
      key was appended, unless it is the mask itself and the pool was empty. */
  lemma DeleteUndoesAdd(keys: seq<string>, key: string)
    requires CleanField(Strip(key)) && ',' !in key && Strip(key) !in keys
    ensures Step(keys, AddOp(key, true)) == keys + [Strip(key)] <==> keys != [] || Strip(key) != MASKED_SECRET
    ensures Step(Step(keys, AddOp(key, true)), DeleteOp(|keys|, true)) == keys <==> keys != [MASKED_SECRET]
  {
    OneKeyAdded(keys, key);
    AppendThenDelete(keys, Strip(key));
  }

  lemma OneKeyAdded(keys: seq<string>, key: string)
    requires CleanField(Strip(key)) && ',' !in key && Strip(key) !in keys
    ensures Edited(keys, AddOp(key, true)) == keys + [Strip(key)]
  {
    SplitPlain(key, ',');
    var submitted := Fields(key);
    assert submitted == [Strip(key)] by {
      assert KeepFields([key]) == [Strip(key)];
    }
    assert submitted[..0] == [];
    assert NewKeys(keys, submitted) == [Strip(key)];
  }

  lemma AppendThenDelete(keys: seq<string>, key: string)
    requires key !in keys
    ensures Edited(keys + [key], DeleteOp(|keys|, true)) == keys
    ensures keys + [key] == [MASKED_SECRET] <==> keys == [] && key == MASKED_SECRET
  {
    var all := keys + [key];
    assert all[..|keys|] + all[|keys| + 1..] == keys;
    if all == [MASKED_SECRET] {
      assert |all| == 1;
    }
  }

  /** Nothing else undoes it: deleting another position leaves another list. */
  lemma OnlyTheLastUndoes(keys: seq<string>, key: string, index: nat)
    requires key !in keys && index < |keys|
    ensures Without(keys + [key], index) != keys
  {
    var left := Without(keys + [key], index);
    assert left[|keys| - 1] == key;
    assert keys[|keys| - 1] in keys;
  }
}
