/**
  Many writers editing one stored document, each by reading it, deriving a replacement and
  writing that back. The lock makes the whole of that one critical section; `Unlocked` is the
  same protocol without it.
*/
module LockedEdits {
  import opened Options

  /** Where a writer is. A failed writer leaves the critical section without having saved. */
  datatype Phase<D> = Idle | Holding | Loaded(base: D) | Built(next: D) | Saved | Finished | Failed

  datatype State<D> = State(doc: D, owner: Option<nat>, phase: map<nat, Phase<D>>)

  datatype Action =
    | Acquire(w: nat)
    | Load(w: nat)
    | Build(w: nat)
    | Save(w: nat)
    | Release(w: nat)
    | Fail(w: nat)

  function PhaseOf<D>(s: State<D>, w: nat): Phase<D> {
    if w in s.phase then s.phase[w] else Idle
  }

  function SetPhase<D>(s: State<D>, w: nat, p: Phase<D>): State<D> {
    s.(phase := s.phase[w := p])
  }

  /** One step; `None` when it is not enabled. `edits[w]` is the edit of writer `w`, `apply`
      derives the new document, and with `locked` only one writer may be inside. */
  function Next<D, E>(apply: (D, E) -> D, edits: seq<E>, locked: bool, s: State<D>, a: Action): Option<State<D>> {
    if a.w >= |edits| then None
    else
      var p := PhaseOf(s, a.w);
      match a
      case Acquire(w) =>
        if p.Idle? && (locked ==> s.owner.None?) then Some(SetPhase(s, w, Holding).(owner := Some(w))) else None
      case Load(w) => if p.Holding? then Some(SetPhase(s, w, Loaded(s.doc))) else None
      case Build(w) => if p.Loaded? then Some(SetPhase(s, w, Built(apply(p.base, edits[w])))) else None
      case Save(w) => if p.Built? then Some(SetPhase(s, w, Saved).(doc := p.next)) else None
      case Release(w) => if p.Saved? then Some(SetPhase(s, w, Finished).(owner := None)) else None
      case Fail(w) =>
        if p.Holding? || p.Loaded? || p.Built? then Some(SetPhase(s, w, Failed).(owner := None)) else None
  }

  ghost function After<D, E>(
    apply: (D, E) -> D, edits: seq<E>, locked: bool, initial: D, acts: seq<Action>): Option<State<D>> {
    if acts == [] then Some(State(initial, None, map[]))
    else
      var before := After(apply, edits, locked, initial, acts[..|acts| - 1]);
      if before.None? then None else Next(apply, edits, locked, before.value, acts[|acts| - 1])
  }

  /** The writers in the order in which they took the lock. */
  ghost function LockOrder(acts: seq<Action>): seq<nat> {
    if acts == [] then []
    else LockOrder(acts[..|acts| - 1]) + if acts[|acts| - 1].Acquire? then [acts[|acts| - 1].w] else []
  }

  ghost predicate Committed<D>(p: Phase<D>) {
    p.Saved? || p.Finished?
  }

  ghost predicate InRange<E>(edits: seq<E>, order: seq<nat>) {
    forall i | 0 <= i < |order| :: order[i] < |edits|
  }

  /** The edits of those writers that saved, in lock order. */
  ghost function CommittedEdits<D, E>(edits: seq<E>, s: State<D>, order: seq<nat>): seq<E>
    requires InRange(edits, order)
  {
    if order == [] then []
    else
      var w := order[|order| - 1];
      CommittedEdits(edits, s, order[..|order| - 1])
      + if Committed(PhaseOf(s, w)) then [edits[w]] else []
  }

  ghost function Fold<D, E>(apply: (D, E) -> D, initial: D, edits: seq<E>): D {
    if edits == [] then initial else apply(Fold(apply, initial, edits[..|edits| - 1]), edits[|edits| - 1])
  }

  ghost predicate Inside<D>(p: Phase<D>) {
    p.Holding? || p.Loaded? || p.Built? || p.Saved?
  }

  /** What every step keeps: at most the owner is inside, it is the last to have taken the
      lock, and what it has read or built is based on the document as it is now. */
  ghost predicate Good<D, E>(apply: (D, E) -> D, edits: seq<E>, s: State<D>, order: seq<nat>) {
    && InRange(edits, order)
    && (forall i, j | 0 <= i < j < |order| :: order[i] != order[j])
    && (forall w: nat :: w !in order ==> PhaseOf(s, w).Idle?)
    && (forall w | w in order :: !PhaseOf(s, w).Idle?)
    && (forall w: nat :: Inside(PhaseOf(s, w)) <==> s.owner == Some(w))
    && (s.owner.Some? ==>
          && order != [] && order[|order| - 1] == s.owner.value
          && var p := PhaseOf(s, s.owner.value);
             && (p.Loaded? ==> p.base == s.doc)
             && (p.Built? ==> p.next == apply(s.doc, edits[s.owner.value])))
  }

  lemma {:induction false} CommittedFrame<D, E>(edits: seq<E>, s: State<D>, t: State<D>, order: seq<nat>)
    requires InRange(edits, order)
    requires forall i | 0 <= i < |order| :: Committed(PhaseOf(s, order[i])) <==> Committed(PhaseOf(t, order[i]))
    ensures CommittedEdits(edits, s, order) == CommittedEdits(edits, t, order)
  {
    if order != [] {
      CommittedFrame(edits, s, t, order[..|order| - 1]);
    }
  }

  lemma GoodStep<D, E>(apply: (D, E) -> D, edits: seq<E>, s: State<D>, order: seq<nat>, a: Action)
    requires Good(apply, edits, s, order)
    requires Next(apply, edits, true, s, a).Some?
    ensures Good(apply, edits, Next(apply, edits, true, s, a).value, if a.Acquire? then order + [a.w] else order)
  {
    var t := Next(apply, edits, true, s, a).value;
    assert forall w: nat | w != a.w :: PhaseOf(t, w) == PhaseOf(s, w);
    assert !a.Acquire? ==> s.owner == Some(a.w);
  }

  /** No lost update: in every interleaving of the writers, at every moment, the stored document
      is the initial one with exactly the saved edits applied, in lock order. */
  lemma {:induction false} NoLostUpdate<D, E>(apply: (D, E) -> D, edits: seq<E>, initial: D, acts: seq<Action>)
    requires After(apply, edits, true, initial, acts).Some?
    ensures var s := After(apply, edits, true, initial, acts).value;
      && Good(apply, edits, s, LockOrder(acts))
      && s.doc == Fold(apply, initial, CommittedEdits(edits, s, LockOrder(acts)))
  {
    if acts != [] {
      var front, a := acts[..|acts| - 1], acts[|acts| - 1];
      NoLostUpdate(apply, edits, initial, front);
      var s, order := After(apply, edits, true, initial, front).value, LockOrder(front);
      GoodStep(apply, edits, s, order, a);
      DocStep(apply, edits, initial, s, order, a);
      assert LockOrder(acts) == if a.Acquire? then order + [a.w] else order;
    }
  }

  lemma DocStep<D, E>(
    apply: (D, E) -> D, edits: seq<E>, initial: D, s: State<D>, order: seq<nat>, a: Action)
    requires Good(apply, edits, s, order)
    requires s.doc == Fold(apply, initial, CommittedEdits(edits, s, order))
    requires Next(apply, edits, true, s, a).Some?
    ensures var t := Next(apply, edits, true, s, a).value;
      var after := if a.Acquire? then order + [a.w] else order;
      InRange(edits, after) && t.doc == Fold(apply, initial, CommittedEdits(edits, t, after))
  {
    var t := Next(apply, edits, true, s, a).value;
    if a.Acquire? {
      AcquireFacts(apply, edits, s, order, a);
      AcquireStep(apply, edits, initial, s, t, order, a.w);
    } else if a.Save? {
      SaveFacts(apply, edits, s, order, a);
      SaveStep(apply, edits, initial, s, t, order);
    } else {
      QuietStep(apply, edits, s, order, a);
    }
  }

  lemma AcquireFacts<D, E>(
    apply: (D, E) -> D, edits: seq<E>, s: State<D>, order: seq<nat>, a: Action)
    requires Good(apply, edits, s, order) && a.Acquire? && Next(apply, edits, true, s, a).Some?
    ensures var t := Next(apply, edits, true, s, a).value;
      && InRange(edits, order + [a.w]) && t.doc == s.doc && !Committed(PhaseOf(t, a.w))
      && forall i | 0 <= i < |order| :: PhaseOf(t, order[i]) == PhaseOf(s, order[i])
  {
    assert forall i | 0 <= i < |order| :: order[i] in order;
  }

  lemma SaveFacts<D, E>(apply: (D, E) -> D, edits: seq<E>, s: State<D>, order: seq<nat>, a: Action)
    requires Good(apply, edits, s, order) && a.Save? && Next(apply, edits, true, s, a).Some?
    ensures var t := Next(apply, edits, true, s, a).value;
      && order != [] && order[|order| - 1] == a.w
      && !Committed(PhaseOf(s, a.w)) && Committed(PhaseOf(t, a.w)) && t.doc == apply(s.doc, edits[a.w])
      && forall i | 0 <= i < |order| - 1 :: PhaseOf(t, order[i]) == PhaseOf(s, order[i])
  {
    assert Inside(PhaseOf(s, a.w));
  }

  /** A step that is neither an acquire nor a save commits nothing. */
  lemma QuietStep<D, E>(apply: (D, E) -> D, edits: seq<E>, s: State<D>, order: seq<nat>, a: Action)
    requires InRange(edits, order) && Next(apply, edits, true, s, a).Some? && !a.Acquire? && !a.Save?
    ensures var t := Next(apply, edits, true, s, a).value;
      t.doc == s.doc && CommittedEdits(edits, t, order) == CommittedEdits(edits, s, order)
  {
    var t := Next(apply, edits, true, s, a).value;
    forall i | 0 <= i < |order| ensures Committed(PhaseOf(s, order[i])) <==> Committed(PhaseOf(t, order[i])) {
      assert order[i] != a.w ==> PhaseOf(t, order[i]) == PhaseOf(s, order[i]);
    }
    CommittedFrame(edits, s, t, order);
  }

  lemma AcquireStep<D, E>(
    apply: (D, E) -> D, edits: seq<E>, initial: D, s: State<D>, t: State<D>, order: seq<nat>, w: nat)
    requires InRange(edits, order + [w]) && InRange(edits, order)
    requires t.doc == s.doc == Fold(apply, initial, CommittedEdits(edits, s, order))
    requires !Committed(PhaseOf(t, w))
    requires forall i | 0 <= i < |order| :: PhaseOf(t, order[i]) == PhaseOf(s, order[i])
    ensures t.doc == Fold(apply, initial, CommittedEdits(edits, t, order + [w]))
  {
    CommittedFrame(edits, s, t, order);
    assert (order + [w])[..|order|] == order;
    var before := CommittedEdits(edits, t, order);
    assert CommittedEdits(edits, t, order + [w]) == before + [];
    assert before + [] == before;
  }

  lemma SaveStep<D, E>(
    apply: (D, E) -> D, edits: seq<E>, initial: D, s: State<D>, t: State<D>, order: seq<nat>)
    requires InRange(edits, order) && order != []
    requires s.doc == Fold(apply, initial, CommittedEdits(edits, s, order))
    requires var w := order[|order| - 1];
      && !Committed(PhaseOf(s, w)) && Committed(PhaseOf(t, w))
      && t.doc == apply(s.doc, edits[w])
    requires forall i | 0 <= i < |order| - 1 :: PhaseOf(t, order[i]) == PhaseOf(s, order[i])
    ensures t.doc == Fold(apply, initial, CommittedEdits(edits, t, order))
  {
    var last := |order| - 1;
    var before := CommittedEdits(edits, s, order[..last]);
    CommittedFrame(edits, s, t, order[..last]);
    assert CommittedEdits(edits, s, order) == before + [] == before;
    var after := before + [edits[order[last]]];
    assert CommittedEdits(edits, t, order) == after;
    assert after[..|after| - 1] == before;
  }

  /** Once every writer has finished or failed, every finished edit is in the document. */
  ghost predicate Quiescent<D>(s: State<D>, writers: nat) {
    forall w: nat | w < writers :: PhaseOf(s, w).Finished? || PhaseOf(s, w).Failed?
  }

  /** The same edit applied by two writers that both read before either wrote. */
  const RACE := [Acquire(0), Acquire(1), Load(0), Load(1), Build(0), Build(1), Save(0), Save(1), Release(0), Release(1)]

  /** Without the lock, whenever two edits differ in effect from the second one alone, a run
      exists in which both writers finish and the first edit is gone. */
  lemma UnlockedLosesUpdate<D, E>(apply: (D, E) -> D, initial: D, first: E, second: E)
    ensures var end := After(apply, [first, second], false, initial, RACE);
      && end.Some?
      && Quiescent(end.value, 2)
      && PhaseOf(end.value, 0).Finished? && PhaseOf(end.value, 1).Finished?
      && end.value.doc == apply(initial, second)
  {
    var edits := [first, second];
    BothReadFirst(apply, edits, initial);
    ThenBothSave(apply, edits, initial);
    Step(apply, edits, initial, RACE[..8], Release(0));
    Step(apply, edits, initial, RACE[..9], Release(1));
    assert RACE[..9] + [Release(1)] == RACE;
  }

  lemma ThenBothSave<D, E>(apply: (D, E) -> D, edits: seq<E>, initial: D)
    requires |edits| == 2
    requires After(apply, edits, false, initial, RACE[..4])
      == Some(State(initial, Some(1), map[0 := Loaded(initial), 1 := Loaded(initial)]))
    ensures After(apply, edits, false, initial, RACE[..8])
      == Some(State(apply(initial, edits[1]), Some(1), map[0 := Saved, 1 := Saved]))
  {
    var one, two := apply(initial, edits[0]), apply(initial, edits[1]);
    var read: map<nat, Phase<D>> := map[0 := Loaded(initial), 1 := Loaded(initial)];
    Step(apply, edits, initial, RACE[..4], Build(0));
    Step(apply, edits, initial, RACE[..5], Build(1));
    var built: map<nat, Phase<D>> := map[0 := Built(one), 1 := Built(two)];
    assert read[0 := Built(one)][1 := Built(two)] == built;
    assert After(apply, edits, false, initial, RACE[..6]) == Some(State(initial, Some(1), built));
    Step(apply, edits, initial, RACE[..6], Save(0));
    Step(apply, edits, initial, RACE[..7], Save(1));
    var saved: map<nat, Phase<D>> := map[0 := Saved, 1 := Saved];
    assert built[0 := Saved][1 := Saved] == saved;
  }

  lemma BothReadFirst<D, E>(apply: (D, E) -> D, edits: seq<E>, initial: D)
    requires |edits| == 2
    ensures After(apply, edits, false, initial, RACE[..4])
      == Some(State(initial, Some(1), map[0 := Loaded(initial), 1 := Loaded(initial)]))
  {
    assert RACE[..0] == [];
    Step(apply, edits, initial, RACE[..0], Acquire(0));
    Step(apply, edits, initial, RACE[..1], Acquire(1));
    assert After(apply, edits, false, initial, RACE[..2])
      == Some(State(initial, Some(1), map[0 := Holding, 1 := Holding]));
    Step(apply, edits, initial, RACE[..2], Load(0));
    Step(apply, edits, initial, RACE[..3], Load(1));
    var reading: map<nat, Phase<D>> := map[0 := Holding, 1 := Holding];
    assert reading[0 := Loaded(initial)][1 := Loaded(initial)] == map[0 := Loaded(initial), 1 := Loaded(initial)];
  }

  lemma Step<D, E>(apply: (D, E) -> D, edits: seq<E>, initial: D, acts: seq<Action>, a: Action)
    requires |acts| < |RACE| && acts == RACE[..|acts|] && a == RACE[|acts|]
    requires After(apply, edits, false, initial, acts).Some?
    ensures RACE[..|acts| + 1] == acts + [a]
    ensures After(apply, edits, false, initial, acts + [a])
      == Next(apply, edits, false, After(apply, edits, false, initial, acts).value, a)
  {
    assert (acts + [a])[..|acts|] == acts;
  }
}
