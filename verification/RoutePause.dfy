/** The Pause button of one model on one route: a read-modify-write inside the config lock
    (admin_routes.py, persistence.py). */
module RoutePause {
  import opened Options
  import opened Text
  import opened PauseLists
  import opened LockedEdits

  datatype Click = Click(pausedKey: string, ref: string, paused: bool)

  /** The new pause list of the clicked route. */
  function Clicked(current: seq<string>, click: Click): seq<string> {
    if click.paused then WithPause(current, click.ref) else Keep(current, {click.ref})
  }

  /** The update `build` derives from the settings it is handed at commit time. */
  function Update(config: Config, click: Click): Settings {
    map[click.pausedKey := Format(Clicked(Refs(config.running, click.pausedKey), click))]
  }

  /** What the commit makes of the configuration. */
  function Build(s: Sources): (Config, Click) -> Config {
    (config: Config, click: Click) => Write(s, config, Update(config, click))
  }

  datatype Response = Accepted(click: Click) | NotARoute | NoRef

  /** The request up to the commit. A commit without errors is answered with `click.paused`. */
  method SetRoutePause(pauseKeyFor: map<string, string>, modelKey: string, modelRef: string, paused: bool)
    returns (r: Response)
    ensures r.NotARoute? <==> modelKey !in pauseKeyFor
    ensures r.NoRef? <==> modelKey in pauseKeyFor && Strip(modelRef) == ""
    ensures r.Accepted? ==>
      && r.click == Click(pauseKeyFor[modelKey], Strip(modelRef), paused)
      && r.click.ref != "" && Tight(IsSpace, r.click.ref)
      && (CleanField(r.click.ref) <==> ',' !in r.click.ref)
  {
    if modelKey !in pauseKeyFor {
      return NotARoute;
    }
    var ref := Strip(modelRef);
    if ref == "" {
      return NoRef;
    }
    TrimTight(IsSpace, modelRef);
    r := Accepted(Click(pauseKeyFor[modelKey], ref, paused));
  }

  // ----- one click

  /** What the clicked list reads back as: a pause adds the ref, or its pieces if it has commas, and an
      unpause takes the ref away. */
  lemma ClickedReadsBack(config: Config, click: Click, ref: string)
    ensures var before := Refs(config.running, click.pausedKey);
      ref in ParseRefs(Update(config, click)[click.pausedKey]) <==>
        if click.paused then ref in before || ref in Fields(click.ref) else ref in before && ref != click.ref
  {
    if click.paused {
      WithPauseReadsBack(config.running, click.pausedKey, click.ref);
    } else {
      KeepReadsBack(config.running, click.pausedKey, {click.ref});
      KeepFacts(Refs(config.running, click.pausedKey), {click.ref});
    }
  }

  /** What an accepted click makes of every ref on every route: the clicked list changes as the click
      says, a locked list does not, and any other list is what the write starts from. */
  lemma ClickDoesWhatItSays(s: Sources, config: Config, click: Click, key: string, ref: string)
    requires Coherent(s, config) && PauseKey(s, key)
    ensures PausedIn(Build(s)(config, click), key, ref) <==>
      if key in s.locked then PausedIn(config, key, ref)
      else if key != click.pausedKey then ref in Refs(Base(s, config), key)
      else if click.paused then PausedIn(config, key, ref) || ref in Fields(click.ref)
      else PausedIn(config, key, ref) && ref != click.ref
  {
    RefsAfterWrite(s, config, Update(config, click), key);
    if key == click.pausedKey {
      ClickedReadsBack(config, click, ref);
    }
  }

  /** After an accepted pause click the ref is paused exactly when it was paused before, or has no
      comma and its list may be written. After an accepted unpause click it is not paused exactly when
      its list may be written, or it was not paused before. */
  lemma PauseHonoured(s: Sources, config: Config, click: Click)
    requires click.ref != "" && Tight(IsSpace, click.ref)
    requires Coherent(s, config) && PauseKey(s, click.pausedKey)
    ensures click.paused ==>
      (PausedIn(Build(s)(config, click), click.pausedKey, click.ref) <==>
        PausedIn(config, click.pausedKey, click.ref) || (',' !in click.ref && click.pausedKey !in s.locked))
    ensures !click.paused ==>
      (!PausedIn(Build(s)(config, click), click.pausedKey, click.ref) <==>
        !PausedIn(config, click.pausedKey, click.ref) || click.pausedKey !in s.locked)
  {
    ClickDoesWhatItSays(s, config, click, click.pausedKey, click.ref);
    OwnPiece(click.ref);
  }

  /** A ref is one of its own pieces unless it has a comma. */
  lemma OwnPiece(ref: string)
    requires ref != "" && Tight(IsSpace, ref)
    ensures ref in Fields(ref) <==> ',' !in ref
  {
    if ',' in ref {
      FieldsClean(ref);
    } else {
      FieldsOfClean(ref);
    }
  }

  /** A click on a locked list changes no list that is lasting, and is answered like any other. */
  lemma LockedClickDoesNothing(s: Sources, config: Config, click: Click, key: string)
    requires click.pausedKey in s.locked && Coherent(s, config) && PauseKey(s, key)
    ensures Refs(Build(s)(config, click).running, key) == Refs(config.running, key) <==> Lasting(s, config, key)
  {
    RefsAfterWrite(s, config, Update(config, click), key);
  }

  // ----- many clicks

  /** What a click says about one ref on one route, if it says anything. */
  function Says(click: Click, key: string, ref: string): Option<bool> {
    if click.pausedKey != key then None
    else if click.paused then if ref in Fields(click.ref) then Some(true) else None
    else if ref == click.ref then Some(false) else None
  }

  /** What the last of the clicks to say anything about the ref on the route says. */
  ghost function LastSaid(clicks: seq<Click>, key: string, ref: string): Option<bool> {
    if clicks == [] then None
    else
      var last := Says(clicks[|clicks| - 1], key, ref);
      if last.Some? then last else LastSaid(clicks[..|clicks| - 1], key, ref)
  }

  /** Where the first click on the route is, or the number of clicks. */
  ghost function FirstOn(clicks: seq<Click>, key: string): (n: nat)
    ensures n <= |clicks|
  {
    if clicks == [] then 0
    else
      var n := FirstOn(clicks[..|clicks| - 1], key);
      if n < |clicks| - 1 || clicks[|clicks| - 1].pausedKey == key then n else |clicks|
  }

  /** The list as the first click on the route finds it. */
  ghost function Standing(s: Sources, initial: Config, clicks: seq<Click>, key: string): seq<string> {
    Refs(Fold(Build(s), initial, clicks[..FirstOn(clicks, key)]).running, key)
  }

  /** What the clicks leave of one ref on one route. */
  ghost predicate Left(s: Sources, initial: Config, clicks: seq<Click>, key: string, ref: string) {
    if key in s.locked then PausedIn(initial, key, ref)
    else if LastSaid(clicks, key, ref).Some? then LastSaid(clicks, key, ref).value
    else ref in Standing(s, initial, clicks, key)
  }

  lemma FoldSnoc(s: Sources, initial: Config, clicks: seq<Click>)
    requires clicks != []
    ensures Fold(Build(s), initial, clicks) ==
      Build(s)(Fold(Build(s), initial, clicks[..|clicks| - 1]), clicks[|clicks| - 1])
  {
  }

  lemma RunIsCoherent(s: Sources, initial: Config, clicks: seq<Click>)
    requires Coherent(s, initial)
    ensures Coherent(s, Fold(Build(s), initial, clicks))
  {
    if clicks != [] {
      FoldSnoc(s, initial, clicks);
      var before := Fold(Build(s), initial, clicks[..|clicks| - 1]);
      WrittenIsCoherent(s, before, Update(before, clicks[|clicks| - 1]));
    }
  }

  lemma {:induction false} LockedRun(s: Sources, initial: Config, clicks: seq<Click>, key: string)
    requires Coherent(s, initial) && PauseKey(s, key) && key in s.locked
    ensures Refs(Fold(Build(s), initial, clicks).running, key) == Refs(initial.running, key)
  {
    if clicks != [] {
      LockedRun(s, initial, clicks[..|clicks| - 1], key);
      RunIsCoherent(s, initial, clicks[..|clicks| - 1]);
      FoldSnoc(s, initial, clicks);
      var before := Fold(Build(s), initial, clicks[..|clicks| - 1]);
      RefsAfterWrite(s, before, Update(before, clicks[|clicks| - 1]), key);
    }
  }

  /** Once a route is clicked its list is pinned. */
  lemma {:induction false} ClickedIsPinned(s: Sources, initial: Config, clicks: seq<Click>, key: string)
    requires Coherent(s, initial) && PauseKey(s, key) && key !in s.locked
    requires FirstOn(clicks, key) < |clicks|
    ensures Pinned(s, Fold(Build(s), initial, clicks), key)
  {
    var front, last := clicks[..|clicks| - 1], clicks[|clicks| - 1];
    var before := Fold(Build(s), initial, front);
    if FirstOn(front, key) < |front| {
      ClickedIsPinned(s, initial, front, key);
    }
    RunIsCoherent(s, initial, front);
    FoldSnoc(s, initial, clicks);
    StaysPinned(s, before, Update(before, last), key);
  }

  lemma {:induction false} NothingSaidBefore(clicks: seq<Click>, key: string, ref: string)
    requires FirstOn(clicks, key) == |clicks|
    ensures LastSaid(clicks, key, ref) == None
  {
    if clicks != [] {
      NothingSaidBefore(clicks[..|clicks| - 1], key, ref);
    }
  }

  lemma {:induction false} LastSaidIsLeft(s: Sources, initial: Config, clicks: seq<Click>, key: string, ref: string)
    requires Coherent(s, initial) && PauseKey(s, key)
    ensures PausedIn(Fold(Build(s), initial, clicks), key, ref) <==> Left(s, initial, clicks, key, ref)
  {
    if key in s.locked {
      LockedRun(s, initial, clicks, key);
    } else if FirstOn(clicks, key) == |clicks| {
      NothingSaidBefore(clicks, key, ref);
      assert clicks[..|clicks|] == clicks;
    } else {
      LastSaidIsLeft(s, initial, clicks[..|clicks| - 1], key, ref);
      OneMoreClick(s, initial, clicks, key, ref);
    }
  }

  /** A click that says nothing of a ref leaves it, if it is on the ref's route or the list is pinned. */
  lemma ClickSays(s: Sources, config: Config, click: Click, key: string, ref: string)
    requires Coherent(s, config) && PauseKey(s, key) && key !in s.locked
    requires click.pausedKey == key || Pinned(s, config, key)
    ensures PausedIn(Build(s)(config, click), key, ref) <==>
      match Says(click, key, ref) case Some(said) => said case None => PausedIn(config, key, ref)
  {
    ClickDoesWhatItSays(s, config, click, key, ref);
  }

  lemma LeftStep(s: Sources, initial: Config, clicks: seq<Click>, key: string, ref: string)
    requires key !in s.locked && FirstOn(clicks, key) < |clicks|
    ensures Left(s, initial, clicks, key, ref) <==>
      match Says(clicks[|clicks| - 1], key, ref)
      case Some(said) => said
      case None => Left(s, initial, clicks[..|clicks| - 1], key, ref)
  {
    var front := clicks[..|clicks| - 1];
    assert FirstOn(clicks, key) == FirstOn(front, key);
    assert front[..FirstOn(front, key)] == clicks[..FirstOn(clicks, key)];
  }

  lemma OneMoreClick(s: Sources, initial: Config, clicks: seq<Click>, key: string, ref: string)
    requires Coherent(s, initial) && PauseKey(s, key) && key !in s.locked
    requires FirstOn(clicks, key) < |clicks|
    requires var front := clicks[..|clicks| - 1];
      PausedIn(Fold(Build(s), initial, front), key, ref) <==> Left(s, initial, front, key, ref)
    ensures PausedIn(Fold(Build(s), initial, clicks), key, ref) <==> Left(s, initial, clicks, key, ref)
  {
    var front, last := clicks[..|clicks| - 1], clicks[|clicks| - 1];
    RunIsCoherent(s, initial, front);
    if FirstOn(front, key) < |front| {
      ClickedIsPinned(s, initial, front, key);
    }
    FoldSnoc(s, initial, clicks);
    ClickSays(s, Fold(Build(s), initial, front), last, key, ref);
    LeftStep(s, initial, clicks, key, ref);
  }

  /** No lost click: in every interleaving of clicks inside the config lock (one whose write is refused
      simply fails), a ref is paused on a route exactly as the last committed click to say anything of
      it said; if none did, exactly when it is on the list the first click on the route found; and on a
      locked route exactly when it was. */
  lemma NoPauseClickIsLost(
    s: Sources, initial: Config, clicks: seq<Click>, acts: seq<Action>, key: string, ref: string)
    requires After(Build(s), clicks, true, initial, acts).Some?
    requires Coherent(s, initial) && PauseKey(s, key)
    ensures var end := After(Build(s), clicks, true, initial, acts).value;
      && InRange(clicks, LockOrder(acts))
      && (PausedIn(end.doc, key, ref) <==>
            Left(s, initial, CommittedEdits(clicks, end, LockOrder(acts)), key, ref))
  {
    NoLostUpdate(Build(s), clicks, initial, acts);
    var end := After(Build(s), clicks, true, initial, acts).value;
    LastSaidIsLeft(s, initial, CommittedEdits(clicks, end, LockOrder(acts)), key, ref);
  }

  // ----- lists no click is on

  /** Some click found the managed file empty. */
  ghost predicate FoundEmpty(s: Sources, initial: Config, clicks: seq<Click>) {
    exists m :: 0 <= m < |clicks| && Unwritten(Fold(Build(s), initial, clicks[..m]))
  }

  /** What clicks on other routes leave of a list: with none of them it is as it was; otherwise it is
      what the managed file said, or the repo `.env` if the file did not say and was found empty. */
  lemma OtherRoutes(s: Sources, initial: Config, clicks: seq<Click>, key: string)
    requires Coherent(s, initial) && PauseKey(s, key) && key !in s.locked
    requires FirstOn(clicks, key) == |clicks|
    ensures Refs(Fold(Build(s), initial, clicks).running, key) ==
      if clicks == [] || key in initial.managed then Refs(initial.running, key)
      else if FoundEmpty(s, initial, clicks) then Refs(s.repo, key)
      else []
  {
    if clicks != [] {
      FileEntry(s, initial, clicks, key);
      RunIsCoherent(s, initial, clicks);
      var front := clicks[..|clicks| - 1];
      var before := Fold(Build(s), initial, front);
      FoldSnoc(s, initial, clicks);
      RunIsCoherent(s, initial, front);
      NothingPaused();
    }
  }

  lemma {:induction false} FileEntry(s: Sources, initial: Config, clicks: seq<Click>, key: string)
    requires Coherent(s, initial) && PauseKey(s, key) && key !in s.locked
    requires FirstOn(clicks, key) == |clicks|
    ensures var now := Fold(Build(s), initial, clicks);
      if key in initial.managed then key in now.managed && now.managed[key] == initial.managed[key]
      else if FoundEmpty(s, initial, clicks) && key in s.repo
      then key in now.managed && now.managed[key] == s.repo[key]
      else key !in now.managed
  {
    if clicks != [] {
      var front, last := clicks[..|clicks| - 1], clicks[|clicks| - 1];
      var before := Fold(Build(s), initial, front);
      FileEntry(s, initial, front, key);
      FoldSnoc(s, initial, clicks);
      FoundEmptyStep(s, initial, clicks);
    }
  }

  lemma SomePrefix(p: seq<Click> -> bool, clicks: seq<Click>)
    requires clicks != []
    ensures var front := clicks[..|clicks| - 1];
      (exists m :: 0 <= m < |clicks| && p(clicks[..m])) <==> (exists m :: 0 <= m < |front| && p(front[..m])) || p(front)
  {
    var front := clicks[..|clicks| - 1];
    if m :| 0 <= m < |clicks| && p(clicks[..m]) {
      assert m < |front| ==> front[..m] == clicks[..m];
    }
    if m :| 0 <= m < |front| && p(front[..m]) {
      assert front[..m] == clicks[..m];
    }
  }

  lemma FoundEmptyStep(s: Sources, initial: Config, clicks: seq<Click>)
    requires clicks != []
    ensures var front := clicks[..|clicks| - 1];
      FoundEmpty(s, initial, clicks) <==>
        FoundEmpty(s, initial, front) || Unwritten(Fold(Build(s), initial, front))
  {
    var front := clicks[..|clicks| - 1];
    var p := cs => Unwritten(Fold(Build(s), initial, cs));
    SomePrefix(p, clicks);
    assert FoundEmpty(s, initial, clicks) <==> exists m :: 0 <= m < |clicks| && p(clicks[..m]);
    assert FoundEmpty(s, initial, front) <==> exists m :: 0 <= m < |front| && p(front[..m]);
  }

  /** Without the config lock, two pause clicks on one list both finish and the first is gone. */
  lemma UnlockedClickIsLost(
    s: Sources, initial: Config, key: string, first: string, second: string)
    requires Coherent(s, initial) && PauseKey(s, key) && key !in s.locked
    requires CleanField(first) && CleanField(second) && first != second && !PausedIn(initial, key, first)
    ensures var end := After(Build(s), [Click(key, first, true), Click(key, second, true)], false, initial, RACE);
      && end.Some?
      && PhaseOf(end.value, 0).Finished? && PhaseOf(end.value, 1).Finished?
      && PausedIn(end.value.doc, key, second) && !PausedIn(end.value.doc, key, first)
  {
    var clicks := [Click(key, first, true), Click(key, second, true)];
    UnlockedLosesUpdate(Build(s), initial, clicks[0], clicks[1]);
    ClickDoesWhatItSays(s, initial, clicks[1], key, first);
    ClickDoesWhatItSays(s, initial, clicks[1], key, second);
    FieldsOfClean(second);
  }
}
