/**
  The two timed loops of the desktop window (lib.rs): watching a dashboard that is loaded,
  and waiting for a server that was just started.

  A run is given by what the outside world answers: per pass through the loop, whether the
  window is being left, whether the probe was healthy, and what the clock says.
*/
module Supervision {
  import opened Options
  import opened Ladder

  /** One pass of the watch loop. `stamp` is the clock where a first failure is recorded,
      `now` the clock where the elapsed time is read. */
  datatype Probe = Probe(leaving: bool, healthy: bool, stamp: real, now: real)

  datatype Event =
    | Banner
    | Dashboard(url: string)
    | ErrorPage(serverLog: string)
    | Tray(text: string)

  datatype Ending = StillWatching | Left(at: nat) | GaveUp(at: nat)

  // ----- what a history of probes means

  /** The number of failed probes in the unbroken run that ends with probe `i`. */
  ghost function RunLength(probes: seq<Probe>, i: nat): nat
    requires i < |probes|
  {
    if probes[i].healthy then 0
    else 1 + if i == 0 then 0 else RunLength(probes, i - 1)
  }

  /** The failure count from which the window reacts: a threshold of 0 acts like 1. */
  ghost function Reaction(status: Status): nat {
    if status.failureThreshold == 0 then 1 else status.failureThreshold as nat
  }

  /** How long the run ending with probe `i` has lasted. */
  ghost function Outage(probes: seq<Probe>, i: nat): real
    requires i < |probes| && RunLength(probes, i) > 0
  {
    RunLengthBound(probes, i);
    Elapsed(probes[i + 1 - RunLength(probes, i)].stamp, probes[i].now)
  }

  /** The run has reached the threshold and used the whole reconnect budget. */
  ghost predicate OutOfBudget(status: Status, probes: seq<Probe>, i: nat)
    requires i < |probes|
  {
    && RunLength(probes, i) >= Reaction(status)
    && Outage(probes, i) >= status.reconnectTimeout
  }

  ghost predicate Stops(status: Status, probes: seq<Probe>, i: nat)
    requires i < |probes|
  {
    probes[i].leaving || OutOfBudget(status, probes, i)
  }

  /** The banner is up after probe `i`, as long as the loop is still running. */
  ghost predicate BannerUp(status: Status, probes: seq<Probe>, i: int)
    requires i < |probes|
  {
    i >= 0 && RunLength(probes, i) >= Reaction(status)
  }

  /** Everything the window shows in reaction to probe `i`. */
  ghost function Reactions(status: Status, probes: seq<Probe>, i: nat): seq<Event>
    requires i < |probes|
  {
    if probes[i].leaving then []
    else if probes[i].healthy then
      (if BannerUp(status, probes, i - 1) then [Dashboard(status.adminUrl)] else [])
      + [Tray("Server: running")]
    else if RunLength(probes, i) < Reaction(status) then []
    else if OutOfBudget(status, probes, i) then
      [Tray("Server: not answering"), ErrorPage(status.serverLog)]
    else
      [Tray("Server: reconnecting")]
      + if RunLength(probes, i) == Reaction(status) then [Banner] else []
  }

  lemma {:induction false} RunLengthBound(probes: seq<Probe>, i: nat)
    requires i < |probes|
    ensures RunLength(probes, i) <= i + 1
  {
    if !probes[i].healthy && i > 0 {
      RunLengthBound(probes, i - 1);
    }
  }

  /** A run length of `n` means exactly: the last `n` probes failed, the one before did not. */
  lemma {:induction false} RunLengthMeaning(probes: seq<Probe>, i: nat, n: nat)
    requires i < |probes|
    ensures RunLength(probes, i) == n <==>
      && n <= i + 1
      && (forall j | i - n < j <= i :: !probes[j].healthy)
      && (n <= i ==> probes[i - n].healthy)
  {
    RunLengthBound(probes, i);
    if probes[i].healthy {
    } else if i == 0 {
    } else if n == 0 {
    } else {
      RunLengthMeaning(probes, i - 1, n - 1);
    }
  }

  // ----- the watch loop

  /** Every probe got its reactions, and the watch stopped at the first probe that `Stops`, with the
      ending that probe calls for. */
  ghost predicate Watched(status: Status, probes: seq<Probe>, shown: seq<seq<Event>>, end: Ending) {
    && |shown| <= |probes|
    && (forall i | 0 <= i < |shown| :: shown[i] == Reactions(status, probes, i))
    && (forall i | 0 <= i < |shown| - 1 :: !Stops(status, probes, i))
    && (end.StillWatching? ==> |shown| == |probes| && forall i | 0 <= i < |probes| :: !Stops(status, probes, i))
    && (!end.StillWatching? ==> end.at + 1 == |shown| && Stops(status, probes, end.at))
    && (!end.StillWatching? ==> (end.Left? <==> probes[end.at].leaving))
  }

  ghost predicate Watching(status: Status, probes: seq<Probe>, shown: seq<seq<Event>>) {
    && |shown| <= |probes|
    && (forall i | 0 <= i < |shown| :: shown[i] == Reactions(status, probes, i))
    && (forall i | 0 <= i < |shown| :: !Stops(status, probes, i))
  }

  lemma WatchGoesOn(status: Status, probes: seq<Probe>, shown: seq<seq<Event>>)
    requires Watching(status, probes, shown) && |shown| < |probes| && !Stops(status, probes, |shown|)
    ensures Watching(status, probes, shown + [Reactions(status, probes, |shown|)])
  {
  }

  lemma WatchEnds(status: Status, probes: seq<Probe>, shown: seq<seq<Event>>, events: seq<Event>, end: Ending)
    requires Watching(status, probes, shown) && |shown| < |probes| && Stops(status, probes, |shown|)
    requires events == Reactions(status, probes, |shown|)
    requires end == if probes[|shown|].leaving then Left(|shown|) else GaveUp(|shown|)
    ensures Watched(status, probes, shown + [events], end)
  {
  }

  /** Watch a loaded dashboard. `WhatIsShown` says what `Watched` means for what is shown. */
  method WatchHealth(status: Status, probes: seq<Probe>)
    returns (shown: seq<seq<Event>>, end: Ending)
    ensures Watched(status, probes, shown, end)
  {
    shown := [];
    var failures: u32 := 0;
    var firstFailure: Option<real> := None;
    var showingBanner := false;
    var i := 0;
    while i < |probes|
      invariant 0 <= i <= |probes| && |shown| == i
      invariant Watching(status, probes, shown)
      invariant failures as nat == Saturated(Trailing(probes, i))
      invariant firstFailure == if Trailing(probes, i) == 0 then None else Some(probes[i - Trailing(probes, i)].stamp)
      invariant showingBanner <==> BannerUp(status, probes, i - 1)
    {
      if probes[i].leaving {
        WatchEnds(status, probes, shown, [], Left(i));
        return shown + [[]], Left(i);
      }
      if probes[i].healthy {
        WatchGoesOn(status, probes, shown);
        var page := [];
        if showingBanner {
          page := page + [Dashboard(status.adminUrl)];
          showingBanner := false;
        }
        failures := 0;
        firstFailure := None;
        shown := shown + [page + [Tray("Server: running")]];
        i := i + 1;
        continue;
      }
      failures := SaturatingIncrement(failures);
      var since := if firstFailure.Some? then firstFailure.value else probes[i].stamp;
      firstFailure := Some(since);
      FailedProbe(status, probes, i, failures, since);
      match ReconnectVerdict(status, failures, Elapsed(since, probes[i].now)) {
        case Ignore =>
          WatchGoesOn(status, probes, shown);
          shown := shown + [[]];
        case Waiting =>
          WatchGoesOn(status, probes, shown);
          var page := [Tray("Server: reconnecting")];
          if !showingBanner {
            page := page + [Banner];
            showingBanner := true;
          }
          shown := shown + [page];
        case Failed(serverLog) =>
          WatchEnds(status, probes, shown, [Tray("Server: not answering"), ErrorPage(serverLog)], GaveUp(i));
          return shown + [[Tray("Server: not answering"), ErrorPage(serverLog)]], GaveUp(i);
      }
      i := i + 1;
    }
    end := StillWatching;
  }

  /** What the verdict on a failed probe calls for. */
  lemma FailedProbe(status: Status, probes: seq<Probe>, i: nat, failures: u32, since: real)
    requires i < |probes| && !probes[i].healthy && !probes[i].leaving
    requires failures as nat == Saturated(Trailing(probes, i) + 1) && since == probes[i - Trailing(probes, i)].stamp
    ensures RunLength(probes, i) == Trailing(probes, i) + 1
    ensures match ReconnectVerdict(status, failures, Elapsed(since, probes[i].now))
      case Ignore => Reactions(status, probes, i) == [] && !OutOfBudget(status, probes, i)
      case Waiting =>
        && !OutOfBudget(status, probes, i)
        && Reactions(status, probes, i) ==
             [Tray("Server: reconnecting")] + if BannerUp(status, probes, i - 1) then [] else [Banner]
      case Failed(serverLog) =>
        && OutOfBudget(status, probes, i)
        && Reactions(status, probes, i) == [Tray("Server: not answering"), ErrorPage(serverLog)]
  {
    RunLengthBound(probes, i);
  }

  /** The run length before probe `i`. */
  ghost function Trailing(probes: seq<Probe>, i: nat): (n: nat)
    requires i <= |probes|
    ensures n <= i
  {
    if i == 0 then 0 else (RunLengthBound(probes, i - 1); RunLength(probes, i - 1))
  }

  ghost function Saturated(n: nat): nat {
    if n <= 0xFFFF_FFFF then n else 0xFFFF_FFFF
  }

  // ----- what a watch shows

  /** The last tray text among the events. */
  ghost function LastTray(events: seq<Event>): Option<string> {
    if events == [] then None
    else if events[|events| - 1].Tray? then Some(events[|events| - 1].text)
    else LastTray(events[..|events| - 1])
  }

  /** A budget is spent at probe `i` exactly when the unbroken failures that end there are as many as the
      threshold asks for, and began at least the reconnect budget before. */
  lemma SpentBudget(status: Status, probes: seq<Probe>, i: nat)
    requires i < |probes|
    ensures OutOfBudget(status, probes, i) <==>
      exists first :: FailingSince(probes, first, i) && i + 1 - first >= status.failureThreshold as int
        && (probes[i].now - probes[first].stamp >= status.reconnectTimeout || 0.0 >= status.reconnectTimeout)
  {
    RunLengthBound(probes, i);
    if RunLength(probes, i) > 0 {
      RunLengthMeaning(probes, i, RunLength(probes, i));
      assert FailingSince(probes, i + 1 - RunLength(probes, i), i);
    }
    forall first | FailingSince(probes, first, i) ensures RunLength(probes, i) == i + 1 - first {
      RunLengthMeaning(probes, i, i + 1 - first);
    }
  }

  /** An unbroken run of failed probes that begins at `first` and goes on at `i`. */
  ghost predicate FailingSince(probes: seq<Probe>, first: int, i: int) {
    && 0 <= first <= i < |probes|
    && (forall j | first <= j <= i :: !probes[j].healthy)
    && (first > 0 ==> probes[first - 1].healthy)
  }

  /** What a watch has shown: the error page comes with the probe at which it gave up, last and with the
      server's log, and at no other; nothing at all is shown on leaving and for failures below the
      threshold; and the tray says whether the server runs, is being waited for or
      does not answer, and is left alone by a probe on leaving and by failures below the threshold. */
  lemma WhatIsShown(status: Status, probes: seq<Probe>, shown: seq<seq<Event>>, end: Ending, i: nat)
    requires Watched(status, probes, shown, end) && i < |shown|
    ensures forall k | 0 <= k < |shown[i]| ::
      shown[i][k].ErrorPage? <==> end == GaveUp(i) && k == |shown[i]| - 1
    ensures end == GaveUp(i) ==> shown[i] == [Tray("Server: not answering"), ErrorPage(status.serverLog)]
    ensures probes[i].leaving ==> shown[i] == []
    ensures !probes[i].healthy && RunLength(probes, i) < status.failureThreshold as int ==> shown[i] == []
    ensures LastTray(shown[i]) ==
      if probes[i].leaving then None
      else if probes[i].healthy then Some("Server: running")
      else if end == GaveUp(i) then Some("Server: not answering")
      else if RunLength(probes, i) >= 1 && RunLength(probes, i) >= status.failureThreshold as int
      then Some("Server: reconnecting")
      else None
  {
    assert i + 1 < |shown| || end.StillWatching? ==> !Stops(status, probes, i);
    assert end == GaveUp(i) <==> !probes[i].leaving && OutOfBudget(status, probes, i);
    ReactionFacts(status, probes, i);
  }

  lemma ReactionFacts(status: Status, probes: seq<Probe>, i: nat)
    requires i < |probes|
    ensures var events, gaveUp := Reactions(status, probes, i), !probes[i].leaving && OutOfBudget(status, probes, i);
      && (forall k | 0 <= k < |events| :: events[k].ErrorPage? <==> gaveUp && k == |events| - 1)
      && (gaveUp ==> events == [Tray("Server: not answering"), ErrorPage(status.serverLog)])
      && (probes[i].leaving || (!probes[i].healthy && RunLength(probes, i) < Reaction(status)) ==> events == [])
      && LastTray(events) ==
        if probes[i].leaving then None
        else if probes[i].healthy then Some("Server: running")
        else if gaveUp then Some("Server: not answering")
        else if RunLength(probes, i) >= Reaction(status) then Some("Server: reconnecting")
        else None
  {
    var events := Reactions(status, probes, i);
    if |events| == 2 {
      assert events[..1] == [events[0]];
      assert [events[0]][..0] == [];
    } else if |events| == 1 {
      assert events[..0] == [];
    }
  }

  // ----- page traces over whole runs

  /** The banner and dashboard pages among the reactions to the first `n` probes. */
  ghost function Pages(status: Status, probes: seq<Probe>, n: nat): seq<Event>
    requires n <= |probes|
  {
    if n == 0 then [] else Pages(status, probes, n - 1) + OnlyPages(Reactions(status, probes, n - 1))
  }

  ghost function OnlyPages(events: seq<Event>): seq<Event> {
    if events == [] then []
    else (if events[0].Banner? || events[0].Dashboard? then [events[0]] else []) + OnlyPages(events[1..])
  }

  lemma {:induction false} PagesOfProbe(status: Status, probes: seq<Probe>, i: nat)
    requires i < |probes| && !Stops(status, probes, i)
    ensures OnlyPages(Reactions(status, probes, i)) ==
      if probes[i].healthy then
        if BannerUp(status, probes, i - 1) then [Dashboard(status.adminUrl)] else []
      else if RunLength(probes, i) == Reaction(status) then [Banner] else []
  {
    var events := Reactions(status, probes, i);
    if |events| == 2 {
      assert events == [events[0], events[1]];
      assert OnlyPages([events[1]]) == if events[1].Banner? then [events[1]] else [];
    } else if |events| == 1 {
      assert events == [events[0]];
    }
  }

  /** Over any run that has not stopped, banner and dashboard strictly alternate, banner first,
      and the last page is a banner exactly while an outage is on show. */
  lemma {:induction false} PagesAlternate(status: Status, probes: seq<Probe>, n: nat)
    requires n <= |probes|
    requires forall i | 0 <= i < n :: !Stops(status, probes, i)
    ensures Alternating(Pages(status, probes, n), status.adminUrl)
    ensures |Pages(status, probes, n)| % 2 == 1 <==> BannerUp(status, probes, n - 1)
  {
    if n > 0 {
      var i := n - 1;
      PagesAlternate(status, probes, i);
      PageStep(status, probes, i);
      PageFollows(Pages(status, probes, i), status.adminUrl,
                  BannerUp(status, probes, i - 1), BannerUp(status, probes, i));
    }
  }

  /** A probe shows the page that is due, if it changes whether an outage is on show. */
  lemma PageStep(status: Status, probes: seq<Probe>, n: nat)
    requires n < |probes| && !Stops(status, probes, n)
    ensures Pages(status, probes, n + 1) == Pages(status, probes, n)
      + Due(status.adminUrl, BannerUp(status, probes, n - 1), BannerUp(status, probes, n))
  {
    PagesOfProbe(status, probes, n);
    BannerStep(status, probes, n);
  }

  /** The page to show, if any, when an outage comes on show or goes off it. */
  ghost function Due(url: string, was: bool, up: bool): seq<Event> {
    if up == was then [] else [if up then Banner else Dashboard(url)]
  }

  lemma PageFollows(pages: seq<Event>, url: string, was: bool, up: bool)
    requires Alternating(pages, url) && (|pages| % 2 == 1 <==> was)
    ensures Alternating(pages + Due(url, was, up), url) && (|pages + Due(url, was, up)| % 2 == 1 <==> up)
  {
  }

  ghost predicate Alternating(pages: seq<Event>, url: string) {
    forall k | 0 <= k < |pages| :: pages[k] == if k % 2 == 0 then Banner else Dashboard(url)
  }

  /** A banner goes up with the probe that completes the run, and down with a healthy one. */
  lemma BannerStep(status: Status, probes: seq<Probe>, i: nat)
    requires i < |probes|
    ensures probes[i].healthy ==> !BannerUp(status, probes, i)
    ensures !probes[i].healthy ==>
      (BannerUp(status, probes, i) <==> BannerUp(status, probes, i - 1) || RunLength(probes, i) == Reaction(status))
    ensures !probes[i].healthy && RunLength(probes, i) == Reaction(status) ==> !BannerUp(status, probes, i - 1)
  {
  }

  // ----- one failure run

  /** The clock never goes backwards. */
  ghost predicate Monotone(probes: seq<Probe>) {
    && (forall i | 0 <= i < |probes| :: probes[i].stamp <= probes[i].now)
    && (forall i, j | 0 <= i < j < |probes| :: probes[i].now <= probes[j].stamp)
  }

  ghost function VerdictAt(status: Status, probes: seq<Probe>, i: nat): Verdict
    requires i < |probes| && RunLength(probes, i) > 0
  {
    ReconnectVerdict(status, Saturated(RunLength(probes, i)) as u32, Outage(probes, i))
  }

  ghost function Rank(v: Verdict): nat {
    match v case Ignore => 0 case Waiting => 1 case Failed(_) => 2
  }

  lemma {:induction false} SameRun(probes: seq<Probe>, i: nat, j: nat)
    requires i <= j < |probes| && RunLength(probes, j) > j - i
    ensures RunLength(probes, j) == RunLength(probes, i) + (j - i)
    decreases j
  {
    if i < j {
      SameRun(probes, i, j - 1);
    }
  }

  /** Within one failure run the verdicts only escalate: Ignore, then Waiting, then Failed;
      and a run still below the threshold has painted nothing. */
  lemma VerdictsEscalate(status: Status, probes: seq<Probe>, i: nat, j: nat)
    requires Monotone(probes)
    requires i <= j < |probes| && RunLength(probes, j) > j - i
    requires !probes[i].leaving
    ensures RunLength(probes, i) > 0
    ensures Rank(VerdictAt(status, probes, i)) <= Rank(VerdictAt(status, probes, j))
    ensures VerdictAt(status, probes, j).Ignore? ==> Reactions(status, probes, i) == []
    ensures VerdictAt(status, probes, j).Failed? <==> OutOfBudget(status, probes, j)
  {
    SameRun(probes, i, j);
    RunLengthBound(probes, i);
    RunLengthBound(probes, j);
    RunLengthMeaning(probes, j, RunLength(probes, j));
  }

  // ----- time bounds

  function Max(a: int, b: int): int { if a < b then b else a }

  function MaxReal(a: real, b: real): real { if a < b then b else a }

  function Ceil(x: real): int { -((-x).Floor) }

  /** The sleep between two probes of the watch loop. */
  function PollSeconds(status: Status): real { MaxReal(status.healthPoll, 0.5) }

  /** The sleep between two checks of the start loop. */
  function StartInterval(status: Status): real { MaxReal(status.healthCheckInterval, 0.05) }

  function OutageBound(status: Status): nat {
    Max(1, Max(status.failureThreshold as int, Ceil(status.reconnectTimeout / PollSeconds(status)) + 1))
  }

  lemma CeilCovers(budget: real, step: real)
    requires step > 0.0
    ensures Ceil(budget / step) as real * step >= budget
  {
    var x := budget / step;
    assert x * step == budget;
    assert Ceil(x) as real >= x;
    MulMonotone(x, Ceil(x) as real, step);
  }

  lemma BudgetCovered(budget: real, step: real, n: int)
    requires step > 0.0 && n >= Ceil(budget / step)
    ensures n as real * step >= budget
  {
    CeilCovers(budget, step);
    MulMonotone(Ceil(budget / step) as real, n as real, step);
  }

  lemma MulMonotone(a: real, b: real, step: real)
    requires a <= b && step > 0.0
    ensures a * step <= b * step
  {
  }

  lemma {:induction false} ClockAdvances(probes: seq<Probe>, step: real, i: nat, j: nat)
    requires i <= j < |probes|
    requires forall k | 0 < k < |probes| :: probes[k].now >= probes[k - 1].now + step
    ensures probes[j].now >= probes[i].now + (j - i) as real * step
    decreases j
  {
    if i < j {
      ClockAdvances(probes, step, i, j - 1);
      assert (j - i) as real * step == (j - 1 - i) as real * step + step;
    }
  }

  /** Under an outage that does not end, with a real sleep between probes, the budget has run
      out within `OutageBound` failed probes, wherever the outage starts. */
  lemma OutageEnds(status: Status, probes: seq<Probe>, from: nat)
    requires Monotone(probes)
    requires forall k | 0 < k < |probes| :: probes[k].now >= probes[k - 1].now + PollSeconds(status)
    requires from + OutageBound(status) <= |probes|
    requires forall i | from <= i < |probes| :: !probes[i].healthy
    ensures OutOfBudget(status, probes, from + OutageBound(status) - 1)
  {
    var last := from + OutageBound(status) - 1;
    StillFailing(probes, from, last);
    RunLengthBound(probes, last);
    OutageLasts(status, probes, last);
  }

  lemma OutageLasts(status: Status, probes: seq<Probe>, last: nat)
    requires Monotone(probes)
    requires forall k | 0 < k < |probes| :: probes[k].now >= probes[k - 1].now + PollSeconds(status)
    requires last < |probes| && RunLength(probes, last) >= 1
    requires RunLength(probes, last) - 1 >= Ceil(status.reconnectTimeout / PollSeconds(status))
    ensures Outage(probes, last) >= status.reconnectTimeout
  {
    RunLengthBound(probes, last);
    var first := last + 1 - RunLength(probes, last);
    var step := PollSeconds(status);
    var lasted := (last - first) as real * step;
    assert probes[last].now >= probes[first].now + lasted by {
      ClockAdvances(probes, step, first, last);
    }
    BudgetCovered(status.reconnectTimeout, step, last - first);
    assert probes[first].stamp <= probes[first].now;
    assert Outage(probes, last) == Elapsed(probes[first].stamp, probes[last].now);
  }

  lemma {:induction false} StillFailing(probes: seq<Probe>, from: nat, i: nat)
    requires from <= i < |probes|
    requires forall k | from <= k < |probes| :: !probes[k].healthy
    ensures RunLength(probes, i) >= i + 1 - from
    decreases i
  {
    if i > from {
      StillFailing(probes, from, i - 1);
    }
  }

  // ----- waiting for a start

  /** One pass of the start loop: the probe's answer and the time since the loop began. */
  datatype Check = Check(healthy: bool, elapsed: real)

  ghost predicate Decided(status: Status, check: Check) {
    check.healthy || check.elapsed >= status.startTimeout
  }

  /** Poll until the server answers or the start budget runs out: the first check that decides
      ends the loop, with its own answer. `splashes` counts the pages shown while waiting. */
  method WaitForStart(status: Status, checks: seq<Check>) returns (answer: Option<bool>, splashes: nat)
    ensures splashes <= |checks|
    ensures forall i | 0 <= i < splashes :: !Decided(status, checks[i])
    ensures answer.None? ==> splashes == |checks|
    ensures answer.Some? ==> splashes < |checks| && Decided(status, checks[splashes])
    ensures answer.Some? ==> (answer.value <==> checks[splashes].healthy)
    ensures answer.Some? ==> (answer.value <==> exists i | 0 <= i <= splashes :: checks[i].healthy)
  {
    splashes := 0;
    while splashes < |checks|
      invariant splashes <= |checks|
      invariant forall i | 0 <= i < splashes :: !Decided(status, checks[i])
    {
      if checks[splashes].healthy {
        return Some(true), splashes;
      }
      if !StartMayContinue(status, checks[splashes].elapsed) {
        return Some(false), splashes;
      }
      splashes := splashes + 1;
    }
    answer := None;
  }

  /** The most checks a start can take. */
  function StartBound(status: Status): nat {
    Max(1, Ceil(status.startTimeout / StartInterval(status)) + 1)
  }

  /** With a real sleep between checks, one of the first `StartBound` checks decides. */
  lemma StartDecides(status: Status, checks: seq<Check>)
    requires |checks| >= StartBound(status)
    requires checks[0].elapsed >= 0.0
    requires forall k | 0 < k < |checks| :: checks[k].elapsed >= checks[k - 1].elapsed + StartInterval(status)
    ensures Decided(status, checks[StartBound(status) - 1])
  {
    var n := StartBound(status) - 1;
    ChecksAdvance(checks, StartInterval(status), n);
    BudgetCovered(status.startTimeout, StartInterval(status), n);
  }

  lemma {:induction false} ChecksAdvance(checks: seq<Check>, step: real, n: nat)
    requires n < |checks|
    requires checks[0].elapsed >= 0.0
    requires forall k | 0 < k < |checks| :: checks[k].elapsed >= checks[k - 1].elapsed + step
    ensures checks[n].elapsed >= n as real * step
  {
    if n > 0 {
      ChecksAdvance(checks, step, n - 1);
      assert n as real * step == (n - 1) as real * step + step;
    }
  }
}
