/**
  The ladder thread of the desktop window (lib.rs) beside the threads that press Retry, quit
  and close the window, as interleaved atomic steps over the shared flags.
*/
module LadderRun {
  import opened Options
  import opened Ladder

  /** Where the ladder thread is. */
  datatype Pc =
    | Top                        // about to load QUITTING
    | TopWindow                  // about to look the window up
    | Reading                    // mcc-desktop --print-status is running
    | Installing
    | Launching(launch: Status)  // about to spawn mcc-server
    | Starting                   // wait_for_start
    | Watching                   // watch_health
    | Parking                    // about to clear RETRY_REQUESTED
    | Polling                    // about to swap RETRY_REQUESTED
    | Leaving                    // the swap said no; about to look for a reason to leave
    | Exited

  datatype State = State(pc: Pc, retry: bool, quitting: bool, windowGone: bool)

  datatype Action =
    // other threads
    | PressRetry
    | Quit
    | CloseWindow
    // the ladder thread
    | LoadQuitting
    | StartPass
    | NotInstalled
    | InstallDone
    | StatusUnusable
    | StatusRead(status: Status)
    | Spawn(ok: bool)
    | StartAnswered(came: bool)
    | WatchReturned
    | ClearRetry
    | SwapRetry
    | LookForReason

  const INITIAL := State(Top, false, false, false)

  function AfterDecision(status: Status): Pc {
    match Decide(status)
    case Attach(_) => Watching
    case Start(_, _) => Launching(status)
    case _ => Parking
  }

  /** One atomic step; `None` when the action is not enabled. Losing the window and setting QUITTING,
      from the tray or for `WindowEvent::Destroyed`, are two steps. */
  function Next(s: State, a: Action): Option<State> {
    match a
    case PressRetry => Some(s.(retry := true))
    case Quit => Some(s.(quitting := true))
    case CloseWindow => Some(s.(windowGone := true))
    case LoadQuitting =>
      if s.pc.Top? then Some(s.(pc := if s.quitting then Exited else TopWindow)) else None
    case StartPass =>
      if s.pc.TopWindow? then Some(s.(pc := if s.windowGone then Exited else Reading)) else None
    case NotInstalled => if s.pc.Reading? then Some(s.(pc := Installing)) else None
    case InstallDone => if s.pc.Installing? then Some(s.(pc := Top)) else None
    case StatusUnusable => if s.pc.Reading? then Some(s.(pc := Parking)) else None
    case StatusRead(status) => if s.pc.Reading? then Some(s.(pc := AfterDecision(status))) else None
    case Spawn(ok) => if s.pc.Launching? then Some(s.(pc := if ok then Starting else Parking)) else None
    case StartAnswered(came) => if s.pc.Starting? then Some(s.(pc := if came then Watching else Parking)) else None
    case WatchReturned => if s.pc.Watching? then Some(s.(pc := Parking)) else None
    case ClearRetry => if s.pc.Parking? then Some(s.(pc := Polling, retry := false)) else None
    case SwapRetry =>
      if s.pc.Polling? then Some(s.(pc := if s.retry then Top else Leaving, retry := false)) else None
    case LookForReason =>
      if s.pc.Leaving? then Some(s.(pc := if s.quitting || s.windowGone then Top else Polling)) else None
  }

  /** The state after a sequence of actions, if each was enabled when it happened. */
  ghost function After(acts: seq<Action>): Option<State> {
    if acts == [] then Some(INITIAL)
    else
      var before := After(acts[..|acts| - 1]);
      if before.None? then None else Next(before.value, acts[|acts| - 1])
  }

  ghost predicate Run(acts: seq<Action>) {
    After(acts).Some?
  }

  // ----- what happened in a run

  /** Action `k` really began a pass: the window was there. */
  ghost predicate BeginsPass(acts: seq<Action>, k: nat)
    requires k < |acts| && Run(acts[..k])
  {
    acts[k].StartPass? && !After(acts[..k]).value.windowGone
  }

  /** Action `k` is the swap that let `wait_for_retry` return because of a press. */
  ghost predicate RetryTaken(acts: seq<Action>, k: nat)
    requires k < |acts| && Run(acts[..k])
  {
    acts[k].SwapRetry? && After(acts[..k]).value.retry
  }

  ghost function Count(acts: seq<Action>, p: Action -> bool): nat {
    if acts == [] then 0
    else Count(acts[..|acts| - 1], p) + if p(acts[|acts| - 1]) then 1 else 0
  }

  /** `Count` is the number of places. */
  lemma {:induction false} CountMeaning(acts: seq<Action>, p: Action -> bool)
    ensures Count(acts, p) == |set k | 0 <= k < |acts| && p(acts[k])|
  {
    var places := set k | 0 <= k < |acts| && p(acts[k]);
    if acts == [] {
      assert places == {};
    } else {
      var front := acts[..|acts| - 1];
      var before := set k | 0 <= k < |front| && p(front[k]);
      CountMeaning(front, p);
      assert forall k | 0 <= k < |front| :: front[k] == acts[k];
      assert places == before + if p(acts[|front|]) then {|front|} else {};
    }
  }

  ghost predicate Installs(a: Action) { a.InstallDone? }
  ghost predicate Presses(a: Action) { a.PressRetry? }
  ghost predicate Clears(a: Action) { a.ClearRetry? }

  ghost function Passes(acts: seq<Action>): nat
    requires Run(acts)
  {
    if acts == [] then 0
    else
      Passes(acts[..|acts| - 1]) + if BeginsPass(acts, |acts| - 1) then 1 else 0
  }

  /** The position of the last action satisfying `p`, or -1. */
  ghost function Last(acts: seq<Action>, p: Action -> bool): (k: int)
    ensures -1 <= k < |acts|
    ensures k >= 0 ==> p(acts[k])
    ensures forall j | k < j < |acts| :: !p(acts[j])
  {
    if acts == [] then -1
    else if p(acts[|acts| - 1]) then |acts| - 1
    else Last(acts[..|acts| - 1], p)
  }

  lemma {:induction false} PrefixRuns(acts: seq<Action>, k: nat)
    requires Run(acts) && k <= |acts|
    ensures Run(acts[..k])
    decreases |acts|
  {
    if k == |acts| {
      assert acts[..k] == acts;
    } else {
      PrefixRuns(acts[..|acts| - 1], k);
      assert acts[..|acts| - 1][..k] == acts[..k];
    }
  }

  // ----- passes are paid for

  /** A pass may begin (or has been announced at the top of the loop). */
  ghost predicate PassOwed(s: State) {
    || (s.pc.Top? && !s.quitting && !s.windowGone)
    || (s.pc.TopWindow? && !s.windowGone)
  }

  /** Every pass after the first is paid for by one finished install or one Retry press, and a
      press still pending has not paid for anything yet. */
  lemma {:induction false} PassesArePaidFor(acts: seq<Action>)
    requires Run(acts)
    ensures Passes(acts) + (if PassOwed(After(acts).value) then 1 else 0)
            + (if After(acts).value.retry then 1 else 0)
            <= 1 + Count(acts, Installs) + Count(acts, Presses)
  {
    if acts != [] {
      PassesArePaidFor(acts[..|acts| - 1]);
    }
  }

  /** In every interleaving: passes begun <= 1 + installs run + Retry presses. */
  lemma PassAccounting(acts: seq<Action>)
    requires Run(acts)
    ensures Passes(acts) <= 1 + Count(acts, Installs) + Count(acts, Presses)
  {
    PassesArePaidFor(acts);
  }

  // ----- a retry is a press made after the wait began

  lemma {:induction false} PressedWhileWaiting(acts: seq<Action>)
    requires Run(acts)
    requires Waits(After(acts).value)
    ensures Last(acts, Clears) >= 0
    ensures After(acts).value.retry ==>
      Last(acts, Presses) > Last(acts, Clears)
  {
    var front := acts[..|acts| - 1];
    WaitStep(After(front).value, acts[|acts| - 1]);
    if acts[|acts| - 1].ClearRetry? {
      assert Last(acts, Clears) == |front|;
    } else {
      PressedWhileWaiting(front);
    }
  }

  ghost predicate Waits(s: State) {
    s.pc.Polling? || s.pc.Leaving?
  }

  /** How a step can end up in the wait: it begins the wait, or it goes on with it. */
  lemma WaitStep(s: State, a: Action)
    requires Next(s, a).Some? && Waits(Next(s, a).value)
    ensures !a.StartPass?
    ensures a.ClearRetry? ==> !Next(s, a).value.retry
    ensures !a.ClearRetry? ==> Waits(s) && (Next(s, a).value.retry ==> a.PressRetry? || s.retry)
  {
  }

  /** Whenever `wait_for_retry` returns for a Retry, some press came after that wait began,
      and the wait began after every earlier return: no press is ever consumed twice. */
  lemma RetryConsumesAFreshPress(acts: seq<Action>, k: nat)
    requires Run(acts) && k < |acts|
    requires Run(acts[..k]) && RetryTaken(acts, k)
    ensures exists c, j :: 0 <= c < j < k && acts[c].ClearRetry? && acts[j].PressRetry?
              && forall m | c < m < k :: !acts[m].ClearRetry? && !(acts[m].StartPass?)
  {
    PrefixRuns(acts, k + 1);
    assert acts[..k + 1][..k] == acts[..k];
    var before := acts[..k];
    PressedWhileWaiting(before);
    WaitIsUnbroken(before);
    var c := Last(before, Clears);
    var j := Last(before, Presses);
    assert before[c] == acts[c] && before[j] == acts[j];
    assert forall m | c < m < k :: before[m] == acts[m];
  }

  /** Inside a wait the ladder thread does nothing but poll. */
  lemma {:induction false} WaitIsUnbroken(acts: seq<Action>)
    requires Run(acts)
    requires Waits(After(acts).value)
    ensures forall m | Last(acts, Clears) < m < |acts| :: !acts[m].StartPass?
  {
    var front := acts[..|acts| - 1];
    WaitStep(After(front).value, acts[|acts| - 1]);
    if !acts[|acts| - 1].ClearRetry? {
      WaitIsUnbroken(front);
      assert forall m | 0 <= m < |front| :: front[m] == acts[m];
    }
  }

  // ----- the server is spawned only when the status said so, once per pass

  ghost predicate StartsPass(a: Action) { a.StartPass? }
  ghost predicate ReadsStatus(a: Action) { a.StatusRead? }
  ghost predicate Spawns(a: Action) { a.Spawn? }

  ghost predicate SpawnDiscipline(acts: seq<Action>)
    requires Run(acts)
  {
    var pc := After(acts).value.pc;
    && (pc.Reading? || pc.Installing? ==> Last(acts, Spawns) < Last(acts, StartsPass))
    && (pc.Launching? ==>
          && Last(acts, Spawns) < Last(acts, StartsPass) < Last(acts, ReadsStatus)
          && acts[Last(acts, ReadsStatus)].status == pc.launch
          && Decide(pc.launch).Start?)
  }

  /** An action that leaves the ladder thread where it is. */
  ghost predicate Elsewhere(a: Action) {
    a.PressRetry? || a.Quit? || a.CloseWindow?
  }

  /** How a step can end up in the part of a pass that precedes the spawn. */
  lemma PassStep(s: State, a: Action)
    requires Next(s, a).Some?
    ensures var now := Next(s, a).value.pc;
      && (now.Reading? ==> a.StartPass? || (s.pc.Reading? && Elsewhere(a)))
      && (now.Installing? ==> (s.pc.Reading? && a.NotInstalled?) || (s.pc.Installing? && Elsewhere(a)))
      && (now.Launching? ==>
            || (s.pc.Reading? && a.StatusRead? && a.status == now.launch && Decide(a.status).Start?)
            || (s.pc == now && Elsewhere(a)))
  {
  }

  lemma {:induction false} SpawnsAreDisciplined(acts: seq<Action>)
    requires Run(acts)
    ensures SpawnDiscipline(acts)
  {
    if acts != [] {
      var front, a := acts[..|acts| - 1], acts[|acts| - 1];
      SpawnsAreDisciplined(front);
      PassStep(After(front).value, a);
      assert !a.Spawn? ==> Last(acts, Spawns) == Last(front, Spawns);
      assert !a.StartPass? ==> Last(acts, StartsPass) == Last(front, StartsPass);
      assert !a.StatusRead? ==> Last(acts, ReadsStatus) == Last(front, ReadsStatus);
    }
  }

  /** `mcc-server` is spawned only in a pass whose own status document said the port is free
      and the mode is spawn, and only once in that pass. */
  lemma SpawnOncePerPass(acts: seq<Action>, k: nat)
    requires Run(acts) && k < |acts| && acts[k].Spawn?
    ensures exists p, r :: 0 <= p < r < k && acts[p].StartPass? && acts[r].StatusRead?
              && acts[r].status.serverPresence == "free" && acts[r].status.serverMode == "spawn"
              && forall m | p < m < k :: !acts[m].StartPass? && !acts[m].Spawn?
  {
    PrefixRuns(acts, k + 1);
    assert acts[..k + 1][..k] == acts[..k];
    var before := acts[..k];
    SpawnsAreDisciplined(before);
    var p := Last(before, StartsPass);
    var r := Last(before, ReadsStatus);
    assert before[p] == acts[p] && before[r] == acts[r];
    assert forall m | p < m < k :: before[m] == acts[m];
  }

  // ----- the flags

  ghost predicate Quits(a: Action) { a.Quit? }
  ghost predicate Closes(a: Action) { a.CloseWindow? }

  /** The quit flag is up, and the window gone, exactly when the run has had that; and a press is pending
      exactly when it came after the last time the thread cleared or took one. */
  lemma {:induction false} FlagsSayWhatHappened(acts: seq<Action>)
    requires Run(acts)
    ensures After(acts).value.quitting <==> Last(acts, Quits) >= 0
    ensures After(acts).value.windowGone <==> Last(acts, Closes) >= 0
    ensures After(acts).value.retry <==>
      Last(acts, Presses) > Last(acts, Clears) && Last(acts, Presses) > Last(acts, Swaps)
  {
    if acts != [] {
      var front, a := acts[..|acts| - 1], acts[|acts| - 1];
      FlagsSayWhatHappened(front);
      FlagStep(After(front).value, a);
      LastStep(acts, Quits);
      LastStep(acts, Closes);
      LastStep(acts, Presses);
      LastStep(acts, Clears);
      LastStep(acts, Swaps);
    }
  }

  lemma LastStep(acts: seq<Action>, p: Action -> bool)
    requires acts != []
    ensures Last(acts, p) == if p(acts[|acts| - 1]) then |acts| - 1 else Last(acts[..|acts| - 1], p)
  {
  }

  lemma FlagStep(s: State, a: Action)
    requires Next(s, a).Some?
    ensures var now := Next(s, a).value;
      && (now.quitting <==> s.quitting || a.Quit?)
      && (now.windowGone <==> s.windowGone || a.CloseWindow?)
      && (now.retry <==> a.PressRetry? || (s.retry && !a.ClearRetry? && !a.SwapRetry?))
  {
  }

  ghost predicate Swaps(a: Action) { a.SwapRetry? }

  // ----- what the wait, an install and a status lead to

  ghost predicate BeginsNextPass(acts: seq<Action>) {
    var more := acts + [LoadQuitting, StartPass];
    && Run(more) && Run(more[..|acts| + 1])
    && BeginsPass(more, |acts| + 1)
  }

  lemma OneMore(acts: seq<Action>, a: Action)
    requires Run(acts)
    ensures After(acts + [a]) == Next(After(acts).value, a)
  {
    assert (acts + [a])[..|acts|] == acts;
  }

  lemma TopBeginsNextPass(acts: seq<Action>)
    requires Run(acts) && After(acts).value.pc.Top? && !Stopping(After(acts).value)
    ensures BeginsNextPass(acts)
  {
    var checked := acts + [LoadQuitting];
    OneMore(acts, LoadQuitting);
    OneMore(checked, StartPass);
    assert acts + [LoadQuitting, StartPass] == checked + [StartPass];
    assert (checked + [StartPass])[..|acts| + 1] == checked;
  }

  /** When `wait_for_retry` takes a press, or an install is done, the next pass begins, unless the
      thread has a reason to end. */
  lemma RetryOrInstallBeginsAPass(acts: seq<Action>, k: nat)
    requires Run(acts) && k < |acts| && Run(acts[..k])
    requires RetryTaken(acts, k) || acts[k].InstallDone?
    ensures Run(acts[..k + 1])
    ensures !Stopping(After(acts[..k + 1]).value) ==> BeginsNextPass(acts[..k + 1])
  {
    AfterSplits(acts, k);
    if !Stopping(After(acts[..k + 1]).value) {
      TopBeginsNextPass(acts[..k + 1]);
    }
  }

  /** The run goes on with a press and what the waiting thread then does. */
  ghost function Pressed(acts: seq<Action>): seq<Action>
    requires Run(acts)
  {
    acts + [PressRetry] + (if After(acts).value.pc.Leaving? then [LookForReason] else []) + [SwapRetry]
  }

  /** A press during a wait ends it, and the next pass begins, unless the thread has a reason to end. */
  lemma PressBeginsAPass(acts: seq<Action>)
    requires Run(acts) && Waits(After(acts).value) && !Stopping(After(acts).value)
    ensures Run(Pressed(acts)) && BeginsNextPass(Pressed(acts))
  {
    var pressed := acts + [PressRetry];
    OneMore(acts, PressRetry);
    OneMore(pressed, LookForReason);
    var polling := if After(acts).value.pc.Leaving? then pressed + [LookForReason] else pressed;
    OneMore(polling, SwapRetry);
    assert Pressed(acts) == polling + [SwapRetry];
    TopBeginsNextPass(Pressed(acts));
  }

  /** The last action of the ladder thread itself. */
  ghost function LastOwn(acts: seq<Action>): Option<Action> {
    if acts == [] then None
    else if Elsewhere(acts[|acts| - 1]) then LastOwn(acts[..|acts| - 1])
    else Some(acts[|acts| - 1])
  }

  /** The server is watched exactly after a status that says healthy or a start that answered; it is
      about to be spawned exactly after a status that says free and spawn; it is waited for exactly
      after a spawn that worked; and an install runs exactly after a pass that found nothing installed. */
  lemma {:induction false} WhatAPassDoes(acts: seq<Action>)
    requires Run(acts)
    ensures Tells(LastOwn(acts), After(acts).value.pc)
  {
    if acts != [] {
      var front, a := acts[..|acts| - 1], acts[|acts| - 1];
      WhatAPassDoes(front);
      OwnStepTells(After(front).value, a, LastOwn(front));
    }
  }

  ghost predicate SaysHealthy(last: Option<Action>) {
    last.Some? && last.value.StatusRead? && last.value.status.serverPresence == "healthy"
  }

  ghost predicate SaysSpawn(last: Option<Action>) {
    && last.Some? && last.value.StatusRead?
    && last.value.status.serverPresence == "free" && last.value.status.serverMode == "spawn"
  }

  ghost predicate Tells(last: Option<Action>, pc: Pc) {
    && (pc.Watching? <==> (last == Some(StartAnswered(true)) || SaysHealthy(last)))
    && (pc.Launching? <==> SaysSpawn(last))
    && (pc.Starting? <==> last == Some(Spawn(true)))
    && (pc.Installing? <==> last == Some(NotInstalled))
  }

  lemma OwnStepTells(s: State, a: Action, last: Option<Action>)
    requires Next(s, a).Some? && Tells(last, s.pc)
    ensures Tells(if Elsewhere(a) then last else Some(a), Next(s, a).value.pc)
  {
  }

  /** The ladder thread is never stuck: until it ends, one of its own actions is enabled. */
  lemma NeverStuck(acts: seq<Action>)
    requires Run(acts) && !After(acts).value.pc.Exited?
    ensures exists a :: !Elsewhere(a) && Run(acts + [a])
  {
    var a := match After(acts).value.pc
      case Top => LoadQuitting
      case TopWindow => StartPass
      case Reading => StatusUnusable
      case Installing => InstallDone
      case Launching(_) => Spawn(true)
      case Starting => StartAnswered(true)
      case Watching => WatchReturned
      case Parking => ClearRetry
      case Polling => SwapRetry
      case _ => LookForReason;
    OneMore(acts, a);
    assert !Elsewhere(a) && Run(acts + [a]);
  }

  /** The thread ends for no other reason than those. */
  lemma {:induction false} EndsOnlyForAReason(acts: seq<Action>)
    requires Run(acts) && After(acts).value.pc.Exited?
    ensures Stopping(After(acts).value)
  {
    var front, a := acts[..|acts| - 1], acts[|acts| - 1];
    EndStep(After(front).value, a);
    if After(front).value.pc.Exited? {
      EndsOnlyForAReason(front);
    }
  }

  lemma EndStep(s: State, a: Action)
    requires Next(s, a).Some? && Next(s, a).value.pc.Exited?
    ensures s.pc.Exited? || Stopping(s)
    ensures Stopping(s) ==> Stopping(Next(s, a).value)
  {
  }

  // ----- quitting ends the thread

  /** How many actions of its own the thread has left at most, once it has a reason to end. */
  ghost function StepsLeft(s: State): nat {
    match s.pc
    case Exited => 0
    case TopWindow => if s.windowGone then 1 else 10
    case Top => 2
    case Installing => 3
    case Leaving => 3
    case Polling => 4
    case Parking => 5
    case Watching => 6
    case Starting => 7
    case Launching(_) => 8
    case Reading => 9
  }

  /** An action of the thread itself. */
  ghost predicate Own(a: Action) { !Elsewhere(a) }

  /** After QUITTING is set or the window lost, the thread ends within ten actions of its own, whatever
      the other threads do, Retry presses included. */
  lemma StoppingEnds(acts: seq<Action>, q: nat)
    requires Run(acts) && q < |acts| && (acts[q].Quit? || acts[q].CloseWindow?)
    ensures Count(acts, Own) <= Count(acts[..q + 1], Own) + 10
    ensures Count(acts, Own) == Count(acts[..q + 1], Own) + 10 ==> After(acts).value.pc.Exited?
  {
    StepsRunOut(acts, q);
  }

  lemma {:induction false} StepsRunOut(acts: seq<Action>, q: nat)
    requires Run(acts) && q < |acts| && (acts[q].Quit? || acts[q].CloseWindow?)
    ensures Stopping(After(acts).value)
    ensures Count(acts, Own) + StepsLeft(After(acts).value) <= Count(acts[..q + 1], Own) + 10
    decreases |acts|
  {
    AfterSplits(acts, q);
    if q + 1 == |acts| {
      assert acts[..q + 1] == acts;
    } else {
      var front := acts[..|acts| - 1];
      assert front[q] == acts[q] && front[..q + 1] == acts[..q + 1];
      StepsRunOut(front, q);
      OneStepLess(After(front).value, acts[|acts| - 1]);
    }
  }

  lemma OneStepLess(s: State, a: Action)
    requires Stopping(s) && Next(s, a).Some?
    ensures Stopping(Next(s, a).value)
    ensures StepsLeft(Next(s, a).value) + (if Elsewhere(a) then 0 else 1) <= StepsLeft(s)
  {
  }

  /** How many passes may still begin once QUITTING is set. */
  ghost function PassesLeft(s: State): nat {
    if s.pc.TopWindow? && !s.windowGone then 1 else 0
  }

  lemma AfterSplits(acts: seq<Action>, k: nat)
    requires Run(acts) && k < |acts|
    ensures Run(acts[..k]) && Run(acts[..k + 1])
    ensures After(acts[..k + 1]) == Next(After(acts[..k]).value, acts[k])
  {
    PrefixRuns(acts, k + 1);
    assert acts[..k + 1][..k] == acts[..k];
  }

  /** The thread has a reason to end. */
  ghost predicate Stopping(s: State) {
    s.quitting || s.windowGone
  }

  /** After QUITTING is set or the window lost at position `q`, no more passes begin than the one, if
      any, whose check of the flag had already been made and whose window is still there. */
  lemma {:induction false} QuittingStopsPasses(acts: seq<Action>, q: nat)
    requires Run(acts) && q < |acts| && (acts[q].Quit? || acts[q].CloseWindow?)
    ensures Run(acts[..q + 1]) && Stopping(After(acts).value)
    ensures Passes(acts) + PassesLeft(After(acts).value) <=
      Passes(acts[..q + 1]) + PassesLeft(After(acts[..q + 1]).value)
    decreases |acts|
  {
    AfterSplits(acts, q);
    if q + 1 == |acts| {
      assert acts[..q + 1] == acts;
    } else {
      var front := acts[..|acts| - 1];
      assert front[q] == acts[q] && front[..q + 1] == acts[..q + 1];
      QuittingStopsPasses(front, q);
      QuitStep(After(front).value, acts[|acts| - 1]);
    }
  }

  lemma QuitStep(s: State, a: Action)
    requires Stopping(s) && Next(s, a).Some?
    ensures Stopping(Next(s, a).value)
    ensures PassesLeft(Next(s, a).value) + (if a.StartPass? && !s.windowGone then 1 else 0) <= PassesLeft(s)
  {
  }
}
