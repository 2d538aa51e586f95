/**
  Disabling a custom provider pauses its refs on every route and records which; enabling it
  lifts exactly those (admin_custom_routes.py, route_refs.py).
*/
module PauseLedger {
  import opened Text
  import opened PauseLists

  datatype Route = Route(modelKey: string, chainKey: string, pausedKey: string)

  /** The routes (ROUTE_PAUSE_KEYS), and where settings come from. */
  datatype Layout = Layout(routes: seq<Route>, sources: Sources) {
    ghost predicate Valid() {
      && DistinctKeys(routes)
      && (forall i | 0 <= i < |routes| :: PauseKey(sources, routes[i].pausedKey))
    }
  }

  ghost predicate DistinctKeys(routes: seq<Route>) {
    forall i, j | 0 <= i < j < |routes| :: routes[i].pausedKey != routes[j].pausedKey
  }

  const ROUTE_PAUSE_KEYS := [
    Route("MODEL", "MODEL_FALLBACKS", "MODEL_PAUSED"),
    Route("MODEL_FABLE", "MODEL_FABLE_FALLBACKS", "MODEL_FABLE_PAUSED"),
    Route("MODEL_OPUS", "MODEL_OPUS_FALLBACKS", "MODEL_OPUS_PAUSED"),
    Route("MODEL_SONNET", "MODEL_SONNET_FALLBACKS", "MODEL_SONNET_PAUSED"),
    Route("MODEL_HAIKU", "MODEL_HAIKU_FALLBACKS", "MODEL_HAIKU_PAUSED"),
    Route("MODEL_VISION", "MODEL_VISION_FALLBACKS", "MODEL_VISION_PAUSED")]

  /** The shipped routes own six different pause lists. */
  lemma ShippedRoutesAreDistinct()
    ensures DistinctKeys(ROUTE_PAUSE_KEYS)
  {
    var lengths := seq(|ROUTE_PAUSE_KEYS|, i requires 0 <= i < |ROUTE_PAUSE_KEYS| => |ROUTE_PAUSE_KEYS[i].pausedKey|);
    assert lengths == [12, 18, 17, 19, 18, 19];
    assert ROUTE_PAUSE_KEYS[1].pausedKey[6] != ROUTE_PAUSE_KEYS[4].pausedKey[6];
    assert ROUTE_PAUSE_KEYS[3].pausedKey[6] != ROUTE_PAUSE_KEYS[5].pausedKey[6];
    forall i, j | 0 <= i < j < |ROUTE_PAUSE_KEYS|
      ensures ROUTE_PAUSE_KEYS[i].pausedKey != ROUTE_PAUSE_KEYS[j].pausedKey
    {
      assert lengths[i] != lengths[j] || (i == 1 && j == 4) || (i == 3 && j == 5);
    }
  }

  /** Each route's keys are its model key, the same with "_FALLBACKS", and the same with "_PAUSED". */
  lemma ShippedRoutesAreNamed()
    ensures forall i | 0 <= i < |ROUTE_PAUSE_KEYS| :: NamedAlike(ROUTE_PAUSE_KEYS[i])
  {
    FirstRoutesAreNamed();
    LastRoutesAreNamed();
  }

  lemma FirstRoutesAreNamed()
    ensures NamedAlike(ROUTE_PAUSE_KEYS[0]) && NamedAlike(ROUTE_PAUSE_KEYS[1]) && NamedAlike(ROUTE_PAUSE_KEYS[2])
  {
  }

  lemma LastRoutesAreNamed()
    ensures NamedAlike(ROUTE_PAUSE_KEYS[3]) && NamedAlike(ROUTE_PAUSE_KEYS[4]) && NamedAlike(ROUTE_PAUSE_KEYS[5])
  {
  }

  ghost predicate NamedAlike(route: Route) {
    route.chainKey == route.modelKey + "_FALLBACKS" && route.pausedKey == route.modelKey + "_PAUSED"
  }

  /** One pause: the key of the pause list and the ref paused on it. */
  type Pair = (string, string)

  predicate Names(ref: string, provider: string) {
    BeforeSlash(ref) == provider
  }

  /** A ref names what precedes its first slash, or itself if it has none. */
  lemma NamesMeaning(ref: string, provider: string)
    ensures Names(ref, provider) <==> '/' !in provider && (ref == provider || provider + "/" <= ref)
  {
    NoSlashBefore(ref);
    SpanFinds(ref);
    if '/' !in provider && provider + "/" <= ref {
      SpanAt(provider, ref[|provider| + 1..]);
      assert ref == provider + "/" + ref[|provider| + 1..];
    }
    if Names(ref, provider) && ref != provider {
      var n := Span(Slash, ref);
      assert ref[..n + 1] == provider + "/";
    }
  }

  lemma {:induction false} NoSlashBefore(s: string)
    ensures '/' !in BeforeSlash(s)
  {
    if s != "" && !Slash(s[0]) {
      NoSlashBefore(s[1..]);
      assert BeforeSlash(s) == [s[0]] + BeforeSlash(s[1..]);
    }
  }

  // ----- what disabling writes

  /** Everything a route may serve: its primary, then its fallbacks. */
  function Chain(settings: Settings, route: Route): seq<string> {
    var primary := Strip(TextOf(settings, route.modelKey));
    (if primary == "" then [] else [primary]) + Refs(settings, route.chainKey)
  }

  /** The refs of a chain that name the provider and are not paused yet, each once. */
  function NewPauses(paused: seq<string>, chain: seq<string>, provider: string): seq<string> {
    if chain == [] then []
    else
      var found := NewPauses(paused, chain[..|chain| - 1], provider);
      var ref := chain[|chain| - 1];
      if Names(ref, provider) && ref !in paused && ref !in found then found + [ref] else found
  }

  function Added(settings: Settings, route: Route, provider: string): seq<string> {
    NewPauses(Refs(settings, route.pausedKey), Chain(settings, route), provider)
  }

  function PairsOf(key: string, refs: seq<string>): seq<Pair> {
    seq(|refs|, i requires 0 <= i < |refs| => (key, refs[i]))
  }

  /** What disabling does to one route: the list as it is, and what is added to it. */
  datatype Step = Step(key: string, paused: seq<string>, added: seq<string>)

  function StepFor(settings: Settings, route: Route, provider: string): Step {
    Step(route.pausedKey, Refs(settings, route.pausedKey), Added(settings, route, provider))
  }

  function Plan(settings: Settings, routes: seq<Route>, provider: string): seq<Step> {
    seq(|routes|, i requires 0 <= i < |routes| => StepFor(settings, routes[i], provider))
  }

  /** The pauses a plan adds, which are what the ledger records. */
  function PlannedPairs(plan: seq<Step>): seq<Pair> {
    if plan == [] then []
    else PlannedPairs(plan[..|plan| - 1]) + PairsOf(plan[|plan| - 1].key, plan[|plan| - 1].added)
  }

  /** The writes of a plan: only routes that gain a pause are written. */
  function PlannedUpdates(plan: seq<Step>): Settings {
    if plan == [] then map[]
    else
      var last := plan[|plan| - 1];
      var updates := PlannedUpdates(plan[..|plan| - 1]);
      if last.added == [] then updates else updates[last.key := Format(last.paused + last.added)]
  }

  function AddedPairs(settings: Settings, routes: seq<Route>, provider: string): seq<Pair> {
    PlannedPairs(Plan(settings, routes, provider))
  }

  function PauseUpdates(settings: Settings, routes: seq<Route>, provider: string): Settings {
    PlannedUpdates(Plan(settings, routes, provider))
  }

  /** The loop over one chain. */
  method PauseChain(paused: seq<string>, chain: seq<string>, provider: string) returns (added: seq<string>)
    ensures added == NewPauses(paused, chain, provider)
  {
    var now := paused;
    added := [];
    for m := 0 to |chain|
      invariant added == NewPauses(paused, chain[..m], provider)
      invariant now == paused + added
    {
      assert chain[..m + 1][..m] == chain[..m];
      if Names(chain[m], provider) && chain[m] !in now {
        now := now + [chain[m]];
        added := added + [chain[m]];
      }
    }
    assert chain[..|chain|] == chain;
  }

  lemma PlanGrows(plan: seq<Step>, n: nat)
    requires n < |plan|
    ensures PlannedPairs(plan[..n + 1]) == PlannedPairs(plan[..n]) + PairsOf(plan[n].key, plan[n].added)
    ensures PlannedUpdates(plan[..n + 1]) ==
      if plan[n].added == [] then PlannedUpdates(plan[..n])
      else PlannedUpdates(plan[..n])[plan[n].key := Format(plan[n].paused + plan[n].added)]
  {
    assert plan[..n + 1][..n] == plan[..n];
  }

  /** The work on one route. */
  method PlanRoute(settings: Settings, route: Route, provider: string) returns (step: Step)
    ensures step == StepFor(settings, route, provider)
  {
    var paused := Refs(settings, route.pausedKey);
    var added := PauseChain(paused, Chain(settings, route), provider);
    step := Step(route.pausedKey, paused, added);
  }

  /** `updates_pausing_provider`. */
  method UpdatesPausingProvider(
    settings: Settings, routes: seq<Route>, provider: string)
    returns (updates: Settings, pairs: seq<Pair>)
    ensures updates == PauseUpdates(settings, routes, provider)
    ensures pairs == AddedPairs(settings, routes, provider)
  {
    updates, pairs := map[], [];
    ghost var plan := Plan(settings, routes, provider);
    for n := 0 to |routes|
      invariant updates == PlannedUpdates(plan[..n])
      invariant pairs == PlannedPairs(plan[..n])
    {
      var step := PlanRoute(settings, routes[n], provider);
      assert plan[n] == step;
      PlanGrows(plan, n);
      pairs := pairs + PairsOf(step.key, step.added);
      if step.added != [] {
        updates := updates[step.key := Format(step.paused + step.added)];
      }
    }
    assert plan[..|routes|] == plan;
  }

  // ----- what enabling writes

  function LiftedOn(pairs: seq<Pair>, key: string): set<string> {
    set p | p in pairs && p.0 == key :: p.1
  }

  predicate Changes(settings: Settings, pairs: seq<Pair>, key: string) {
    Keep(Refs(settings, key), LiftedOn(pairs, key)) != Refs(settings, key)
  }

  /** Only keys whose list really changes are written; keys that are no setting are skipped. */
  function UnpauseUpdates(settings: Settings, fields: set<string>, pairs: seq<Pair>): Settings {
    var keys := set p | p in pairs && p.0 in fields && Changes(settings, pairs, p.0) :: p.0;
    map key | key in keys :: Format(Keep(Refs(settings, key), LiftedOn(pairs, key)))
  }

  /** The loop that groups the pairs by key. */
  method GroupByKey(pairs: seq<Pair>) returns (byKey: map<string, set<string>>)
    ensures forall key :: key in byKey <==> LiftedOn(pairs, key) != {}
    ensures forall key | key in byKey :: byKey[key] == LiftedOn(pairs, key)
  {
    byKey := map[];
    for n := 0 to |pairs|
      invariant forall key :: key in byKey <==> LiftedOn(pairs[..n], key) != {}
      invariant forall key | key in byKey :: byKey[key] == LiftedOn(pairs[..n], key)
    {
      var (key, ref) := pairs[n];
      assert pairs[..n + 1] == pairs[..n] + [pairs[n]];
      forall k
        ensures LiftedOn(pairs[..n + 1], k) == LiftedOn(pairs[..n], k) + if key == k then {ref} else {}
      {
        LiftedAppend(pairs[..n], [pairs[n]], k);
        LiftedOfOne(pairs[n], k);
      }
      byKey := byKey[key := (if key in byKey then byKey[key] else {}) + {ref}];
    }
    assert pairs[..|pairs|] == pairs;
  }

  lemma LiftedOfOne(pair: Pair, key: string)
    ensures LiftedOn([pair], key) == if pair.0 == key then {pair.1} else {}
  {
    assert forall p :: p in [pair] <==> p == pair;
  }

  lemma UnpauseUpdateOf(settings: Settings, fields: set<string>, pairs: seq<Pair>, key: string)
    ensures key in UnpauseUpdates(settings, fields, pairs) <==>
      LiftedOn(pairs, key) != {} && key in fields && Changes(settings, pairs, key)
    ensures key in UnpauseUpdates(settings, fields, pairs) ==>
      UnpauseUpdates(settings, fields, pairs)[key] == Format(Keep(Refs(settings, key), LiftedOn(pairs, key)))
  {
    if LiftedOn(pairs, key) != {} {
      var ref :| ref in LiftedOn(pairs, key);
      assert (key, ref) in pairs;
    } else {
      assert forall p | p in pairs && p.0 == key :: p.1 in LiftedOn(pairs, key);
    }
  }

  /** `updates_unpausing`. */
  method UpdatesUnpausing(settings: Settings, fields: set<string>, pairs: seq<Pair>) returns (updates: Settings)
    ensures updates == UnpauseUpdates(settings, fields, pairs)
  {
    var byKey := GroupByKey(pairs);
    updates := map[];
    ghost var wanted := UnpauseUpdates(settings, fields, pairs);
    var keys := byKey.Keys;
    forall key | key in wanted ensures key in byKey {
      UnpauseUpdateOf(settings, fields, pairs, key);
    }
    while keys != {}
      invariant keys <= byKey.Keys
      invariant forall key :: key in updates <==> key in wanted && key !in keys
      invariant forall key | key in updates :: updates[key] == wanted[key]
      decreases keys
    {
      var key :| key in keys;
      keys := keys - {key};
      UnpauseUpdateOf(settings, fields, pairs, key);
      if key in fields {
        var current := Refs(settings, key);
        var kept := Keep(current, byKey[key]);
        if kept != current {
          updates := updates[key := Format(kept)];
        }
      }
    }
  }

  // ----- the world the admin routes edit

  datatype Entry = Entry(enabled: bool, apiKeys: seq<string>, ledger: seq<Pair>)

  datatype World = World(config: Config, entries: map<string, Entry>)

  function SetEntry(w: World, provider: string, e: Entry): World {
    w.(entries := w.entries[provider := e])
  }

  /** The configuration after the write that pauses, and after the write that lifts. */
  function WithPauses(config: Config, layout: Layout, provider: string): Config {
    Write(layout.sources, config, PauseUpdates(config.running, layout.routes, provider))
  }

  function WithoutPauses(config: Config, layout: Layout, pairs: seq<Pair>): Config {
    Write(layout.sources, config, UnpauseUpdates(config.running, layout.sources.fields, pairs))
  }

  /** Disabling. A refused write leaves the routes and the ledger alone, but the provider is
      switched off all the same. An accepted write skips the locked lists, and the ledger records
      their pauses with the others. */
  function Disabled(w: World, layout: Layout, provider: string, accepted: bool): World {
    if provider !in w.entries then w
    else
      var e := w.entries[provider];
      if e.enabled && accepted then
        SetEntry(w.(config := WithPauses(w.config, layout, provider)), provider,
                 e.(enabled := false, ledger := e.ledger + AddedPairs(w.config.running, layout.routes, provider)))
      else SetEntry(w, provider, e.(enabled := false))
  }

  /** Enabling. A refused write keeps the ledger for the next time. */
  function Enabled(w: World, layout: Layout, provider: string, accepted: bool): World {
    if provider !in w.entries then w
    else
      var e := w.entries[provider];
      if !e.enabled && e.ledger != [] && accepted then
        SetEntry(w.(config := WithoutPauses(w.config, layout, e.ledger)), provider,
                 e.(enabled := true, ledger := []))
      else SetEntry(w, provider, e.(enabled := true))
  }

  /** A switch touches no other provider, and keeps the keys; a refused write changes no setting and no
      ledger; an accepted one makes a disable only add to the ledger, and an enable empty it. */
  lemma SwitchKeepsTheRest(w: World, layout: Layout, provider: string, on: bool, accepted: bool)
    ensures var v := if on then Enabled(w, layout, provider, accepted) else Disabled(w, layout, provider, accepted);
      && v.entries.Keys == w.entries.Keys
      && (forall q | q in w.entries && q != provider :: v.entries[q] == w.entries[q])
      && (provider in w.entries ==>
           && v.entries[provider].apiKeys == w.entries[provider].apiKeys
           && v.entries[provider].enabled == on
           && (!accepted || w.entries[provider].enabled == on ==>
                 v.config == w.config && v.entries[provider].ledger == w.entries[provider].ledger)
           && (on && accepted && !w.entries[provider].enabled ==> v.entries[provider].ledger == [])
           && (!on ==> w.entries[provider].ledger <= v.entries[provider].ledger))
  {
  }

  class Admin {
    const layout: Layout
    var world: World

    constructor (layout: Layout, world: World)
      ensures this.layout == layout && this.world == world
    {
      this.layout := layout;
      this.world := world;
    }

    /** The part of a provider update that switches it on or off; `accepted` says whether the
        settings write, if one is made, passes validation. */
    method UpdateCustomProvider(provider: string, enabled: bool, accepted: bool) returns (known: bool)
      modifies this
      ensures known <==> provider in old(world).entries
      ensures world == if enabled then Enabled(old(world), layout, provider, accepted)
                       else Disabled(old(world), layout, provider, accepted)
    {
      if provider !in world.entries {
        return false;
      }
      var existing := world.entries[provider];
      if !enabled && existing.enabled {
        PauseRoutesFor(provider, existing, accepted);
      } else if enabled && !existing.enabled {
        UnpauseRoutesFor(provider, existing, accepted);
      }
      world := SetEntry(world, provider, world.entries[provider].(enabled := enabled));
      known := true;
    }

    method PauseRoutesFor(provider: string, entry: Entry, accepted: bool)
      requires provider in world.entries && world.entries[provider] == entry
      modifies this
      ensures world == if !accepted then old(world)
        else SetEntry(
          old(world).(config := WithPauses(old(world).config, layout, provider)), provider,
          entry.(ledger := entry.ledger + AddedPairs(old(world).config.running, layout.routes, provider)))
    {
      var updates, added := UpdatesPausingProvider(world.config.running, layout.routes, provider);
      if accepted {
        world := world.(config := Write(layout.sources, world.config, updates));
        world := SetEntry(world, provider, entry.(ledger := entry.ledger + added));
      }
    }

    method UnpauseRoutesFor(provider: string, entry: Entry, accepted: bool)
      requires provider in world.entries && world.entries[provider] == entry
      modifies this
      ensures world == if !accepted || entry.ledger == [] then old(world)
        else SetEntry(
          old(world).(config := WithoutPauses(old(world).config, layout, entry.ledger)), provider,
          entry.(ledger := []))
    {
      if entry.ledger == [] {
        return;
      }
      var updates := UpdatesUnpausing(world.config.running, layout.sources.fields, entry.ledger);
      if accepted {
        world := world.(config := Write(layout.sources, world.config, updates));
        world := SetEntry(world, provider, entry.(ledger := []));
      }
    }
  }

  // ----- facts about the writes

  ghost predicate DistinctSteps(plan: seq<Step>) {
    forall i, j | 0 <= i < j < |plan| :: plan[i].key != plan[j].key
  }

  lemma {:induction false} UpdateOf(plan: seq<Step>, i: nat)
    requires DistinctSteps(plan) && i < |plan|
    ensures if plan[i].added == [] then plan[i].key !in PlannedUpdates(plan)
      else
        && plan[i].key in PlannedUpdates(plan)
        && PlannedUpdates(plan)[plan[i].key] == Format(plan[i].paused + plan[i].added)
  {
    var front := plan[..|plan| - 1];
    if i < |front| {
      UpdateOf(front, i);
    } else {
      NoUpdateOf(front, plan[i].key);
    }
  }

  lemma {:induction false} NoUpdateOf(plan: seq<Step>, key: string)
    requires forall i | 0 <= i < |plan| :: plan[i].key != key
    ensures key !in PlannedUpdates(plan)
  {
    if plan != [] {
      NoUpdateOf(plan[..|plan| - 1], key);
    }
  }

  lemma {:induction false} NewPausesFacts(paused: seq<string>, chain: seq<string>, provider: string)
    ensures Distinct(NewPauses(paused, chain, provider))
    ensures forall r :: r in NewPauses(paused, chain, provider) <==> r in chain && Names(r, provider) && r !in paused
  {
    if chain != [] {
      NewPausesFacts(paused, chain[..|chain| - 1], provider);
      assert chain == chain[..|chain| - 1] + [chain[|chain| - 1]];
    }
  }

  /** What a pause list says after a write that lifts: every ref not on the ledger if it is written;
      if not, what the write starts from. A locked list is as it was. */
  lemma RefsAfterEnable(config: Config, layout: Layout, pairs: seq<Pair>, key: string)
    requires Coherent(layout.sources, config) && PauseKey(layout.sources, key)
    ensures Refs(WithoutPauses(config, layout, pairs).running, key) ==
      if key in layout.sources.locked then Refs(config.running, key)
      else if Changes(config.running, pairs, key) then Keep(Refs(config.running, key), LiftedOn(pairs, key))
      else Refs(Base(layout.sources, config), key)
  {
    UnpauseUpdateOf(config.running, layout.sources.fields, pairs, key);
    RefsAfterWrite(layout.sources, config, UnpauseUpdates(config.running, layout.sources.fields, pairs), key);
    KeepReadsBack(config.running, key, LiftedOn(pairs, key));
  }

  /** What a route's pause list says after a write that pauses: the old list first, then whatever the
      newly paused refs parse to, if there are any; if not, what the write starts from. A locked list is
      as it was. */
  lemma RefsAfterDisable(config: Config, layout: Layout, i: nat, provider: string)
    requires layout.Valid() && i < |layout.routes| && Coherent(layout.sources, config)
    ensures var key := layout.routes[i].pausedKey;
      var before, added := Refs(config.running, key), Added(config.running, layout.routes[i], provider);
      var after := Refs(WithPauses(config, layout, provider).running, key);
      if key in layout.sources.locked then after == before
      else if added == [] then after == Refs(Base(layout.sources, config), key)
      else Gains(before, added, after)
  {
    var key := layout.routes[i].pausedKey;
    UpdateOfRoute(config.running, layout, i, provider);
    RefsAfterWrite(layout.sources, config, PauseUpdates(config.running, layout.routes, provider), key);
    ParseRefsClean(TextOf(config.running, key));
    ParsedTogether(Refs(config.running, key), Added(config.running, layout.routes[i], provider));
  }

  lemma UpdateOfRoute(settings: Settings, layout: Layout, i: nat, provider: string)
    requires layout.Valid() && i < |layout.routes|
    ensures var key, updates := layout.routes[i].pausedKey, PauseUpdates(settings, layout.routes, provider);
      var added := Added(settings, layout.routes[i], provider);
      if added == [] then key !in updates
      else key in updates && updates[key] == Format(Refs(settings, key) + added)
  {
    UpdateOf(Plan(settings, layout.routes, provider), i);
  }

  // ----- disable, then enable

  /** A disable-enable pair restores this route's pause list: nothing paused on it is already on
      the ledger, and whatever a newly paused ref parses to is either paused already or lifted
      again. (Only a primary with a comma in it parses to anything but itself.) */
  ghost predicate Restorable(w: World, provider: string, route: Route)
    requires provider in w.entries
  {
    var ledger := LiftedOn(w.entries[provider].ledger, route.pausedKey);
    var before, added := Refs(w.config.running, route.pausedKey), Added(w.config.running, route, provider);
    && (forall r | r in before :: r !in ledger)
    && (forall r | r in ConcatFields(added) :: r in before || r in added || r in ledger)
  }

  lemma {:induction false} LiftedByPlan(plan: seq<Step>, key: string)
    requires DistinctSteps(plan)
    ensures forall i | 0 <= i < |plan| && plan[i].key == key ::
      LiftedOn(PlannedPairs(plan), key) == set r | r in plan[i].added
    ensures (forall i | 0 <= i < |plan| :: plan[i].key != key) ==> LiftedOn(PlannedPairs(plan), key) == {}
  {
    if plan != [] {
      var front, last := plan[..|plan| - 1], plan[|plan| - 1];
      LiftedByPlan(front, key);
      LiftedAppend(PlannedPairs(front), PairsOf(last.key, last.added), key);
      LiftedOfPairs(last.key, last.added, key);
    }
  }

  lemma LiftedAppend(a: seq<Pair>, b: seq<Pair>, key: string)
    ensures LiftedOn(a + b, key) == LiftedOn(a, key) + LiftedOn(b, key)
  {
  }

  lemma LiftedOfPairs(own: string, refs: seq<string>, key: string)
    ensures LiftedOn(PairsOf(own, refs), key) == if own == key then set r | r in refs else {}
  {
    var pairs := PairsOf(own, refs);
    forall r ensures r in LiftedOn(pairs, key) <==> own == key && r in refs {
      if own == key && r in refs {
        var i :| 0 <= i < |refs| && refs[i] == r;
        assert pairs[i] == (own, r);
      }
    }
  }

  lemma KeepRestores(before: seq<string>, after: seq<string>, lifted: set<string>)
    requires before <= after && Distinct(after)
    ensures Keep(after, lifted) == before <==>
      (forall r | r in before :: r !in lifted) && (forall r | r in after && r !in before :: r in lifted)
  {
    var rest := after[|before|..];
    assert after == before + rest;
    KeepAppend(before, rest, lifted);
    KeepFacts(rest, lifted);
    KeepFacts(after, lifted);
    assert forall r | r in rest :: r !in before;
    KeepsNothing(rest, lifted);
    if (forall r | r in before :: r !in lifted) {
      KeepAll(before, lifted);
    }
  }

  /** What a list with no ref to pause is after a disable and an enable, when it is not locked: what the
      first write starts from, without the ledger's refs; and the repo `.env`'s list if that only comes
      in with the second write. */
  ghost function LeftAlone(w: World, layout: Layout, provider: string, key: string): seq<string>
    requires provider in w.entries
  {
    var s, down := layout.sources, Disabled(w, layout, provider, true);
    var ledger := down.entries[provider].ledger;
    if key in Base(s, w.config) then Keep(Refs(Base(s, w.config), key), LiftedOn(ledger, key))
    else if ledger != [] && Unwritten(down.config) then Refs(s.repo, key)
    else []
  }

  ghost predicate Restores(w: World, layout: Layout, provider: string, key: string) {
    Refs(Enabled(Disabled(w, layout, provider, true), layout, provider, true).config.running, key)
      == Refs(w.config.running, key)
  }

  /** Disabling an enabled provider and enabling it again, both writes accepted, brings a pause list
      back as the identical sequence exactly when it is locked, or refs are paused on it and the route
      is `Restorable`, or none are and it is what is left of a list that is let alone. */
  lemma DisableEnableRestores(w: World, layout: Layout, provider: string, i: nat)
    requires layout.Valid() && i < |layout.routes| && Coherent(layout.sources, w.config)
    requires provider in w.entries && w.entries[provider].enabled
    ensures var key := layout.routes[i].pausedKey;
      Restores(w, layout, provider, key) <==>
        || key in layout.sources.locked
        || if Added(w.config.running, layout.routes[i], provider) != []
           then Restorable(w, provider, layout.routes[i])
           else Refs(w.config.running, key) == LeftAlone(w, layout, provider, key)
  {
    var key := layout.routes[i].pausedKey;
    var down := Disabled(w, layout, provider, true);
    DownFacts(w, layout, provider);
    RefsAfterDisable(w.config, layout, i, provider);
    RefsAfterEnabling(down, layout, provider, key);
    if key !in layout.sources.locked {
      if Added(w.config.running, layout.routes[i], provider) == [] {
        LetAlone(w, layout, provider, i);
      } else {
        LedgerAfterDisable(w, layout, provider, i);
        RestoredRoute(w, layout.routes[i], provider, Refs(down.config.running, key),
                      LiftedOn(down.entries[provider].ledger, key));
        WrittenByDisable(w, layout, provider, i);
        KeepReadsBack(down.config.running, key, LiftedOn(down.entries[provider].ledger, key));
      }
    }
  }

  lemma DownFacts(w: World, layout: Layout, provider: string)
    requires provider in w.entries && w.entries[provider].enabled
    ensures var down := Disabled(w, layout, provider, true);
      && down.config == WithPauses(w.config, layout, provider) && Coherent(layout.sources, down.config)
      && provider in down.entries && !down.entries[provider].enabled
  {
    WrittenIsCoherent(layout.sources, w.config, PauseUpdates(w.config.running, layout.routes, provider));
  }

  /** A list that a disable writes is lasting. */
  lemma WrittenByDisable(w: World, layout: Layout, provider: string, i: nat)
    requires layout.Valid() && i < |layout.routes| && Coherent(layout.sources, w.config)
    requires provider in w.entries && w.entries[provider].enabled
    requires Added(w.config.running, layout.routes[i], provider) != []
    ensures Lasting(layout.sources, Disabled(w, layout, provider, true).config, layout.routes[i].pausedKey)
  {
    var key := layout.routes[i].pausedKey;
    if key !in layout.sources.locked {
      UpdateOfRoute(w.config.running, layout, i, provider);
      StaysPinned(layout.sources, w.config, PauseUpdates(w.config.running, layout.routes, provider), key);
    }
  }

  /** A list that neither write is of. */
  lemma LetAlone(w: World, layout: Layout, provider: string, i: nat)
    requires layout.Valid() && i < |layout.routes| && Coherent(layout.sources, w.config)
    requires provider in w.entries && w.entries[provider].enabled
    requires Added(w.config.running, layout.routes[i], provider) == []
    requires layout.routes[i].pausedKey !in layout.sources.locked
    ensures var key := layout.routes[i].pausedKey;
      Refs(Enabled(Disabled(w, layout, provider, true), layout, provider, true).config.running, key)
        == LeftAlone(w, layout, provider, key)
  {
    var s, key, down := layout.sources, layout.routes[i].pausedKey, Disabled(w, layout, provider, true);
    DownFacts(w, layout, provider);
    RefsAfterDisable(w.config, layout, i, provider);
    RefsAfterEnabling(down, layout, provider, key);
    UpdateOfRoute(w.config.running, layout, i, provider);
    NothingPaused();
    EntryStays(s, w.config, PauseUpdates(w.config.running, layout.routes, provider), key);
    KeepReadsBack(down.config.running, key, LiftedOn(down.entries[provider].ledger, key));
  }

  /** With anything in the managed file beforehand, the condition is: the list is locked, or the route is
      `Restorable` and its list is in the file, or gains a pause, or is empty. */
  lemma RestoresBesideAFile(w: World, layout: Layout, provider: string, i: nat)
    requires layout.Valid() && i < |layout.routes| && Coherent(layout.sources, w.config)
    requires provider in w.entries && w.entries[provider].enabled
    requires w.config.managed != map[]
    ensures var route := layout.routes[i];
      Restores(w, layout, provider, route.pausedKey) <==>
        || route.pausedKey in layout.sources.locked
        || (&& Restorable(w, provider, route)
            && (|| route.pausedKey in w.config.managed
                || Added(w.config.running, route, provider) != []
                || Refs(w.config.running, route.pausedKey) == []))
  {
    DisableEnableRestores(w, layout, provider, i);
    if layout.routes[i].pausedKey !in layout.sources.locked
      && Added(w.config.running, layout.routes[i], provider) == [] {
      LetAloneBesideAFile(w, layout, provider, i);
    }
  }

  lemma LetAloneBesideAFile(w: World, layout: Layout, provider: string, i: nat)
    requires layout.Valid() && i < |layout.routes| && Coherent(layout.sources, w.config)
    requires provider in w.entries && w.entries[provider].enabled
    requires w.config.managed != map[] && Added(w.config.running, layout.routes[i], provider) == []
    requires layout.routes[i].pausedKey !in layout.sources.locked
    ensures var key := layout.routes[i].pausedKey;
      Refs(w.config.running, key) == LeftAlone(w, layout, provider, key) <==>
        && Restorable(w, provider, layout.routes[i])
        && (key in w.config.managed || Refs(w.config.running, key) == [])
  {
    if layout.routes[i].pausedKey in w.config.managed {
      LetAloneInTheFile(w, layout, provider, i);
    } else {
      StillAFileAfterDisable(w, layout, provider);
    }
  }

  lemma LetAloneInTheFile(w: World, layout: Layout, provider: string, i: nat)
    requires layout.Valid() && i < |layout.routes| && Coherent(layout.sources, w.config)
    requires provider in w.entries && w.entries[provider].enabled
    requires Added(w.config.running, layout.routes[i], provider) == []
    requires layout.routes[i].pausedKey in w.config.managed
    requires layout.routes[i].pausedKey !in layout.sources.locked
    ensures var key := layout.routes[i].pausedKey;
      Refs(w.config.running, key) == LeftAlone(w, layout, provider, key) <==>
        Restorable(w, provider, layout.routes[i])
  {
    var key := layout.routes[i].pausedKey;
    LedgerAfterDisable(w, layout, provider, i);
    assert LiftedOn(Disabled(w, layout, provider, true).entries[provider].ledger, key)
      == LiftedOn(w.entries[provider].ledger, key);
    KeptWhole(w.config.running, key, LiftedOn(w.entries[provider].ledger, key));
    RestorableWithoutPauses(w, provider, layout.routes[i]);
    assert TextOf(Base(layout.sources, w.config), key) == TextOf(w.config.running, key);
  }

  lemma KeptWhole(settings: Settings, key: string, lifted: set<string>)
    ensures Keep(Refs(settings, key), lifted) == Refs(settings, key) <==>
      forall r | r in Refs(settings, key) :: r !in lifted
  {
    ParseRefsClean(TextOf(settings, key));
    KeepRestores(Refs(settings, key), Refs(settings, key), lifted);
  }

  lemma RestorableWithoutPauses(w: World, provider: string, route: Route)
    requires provider in w.entries && Added(w.config.running, route, provider) == []
    ensures Restorable(w, provider, route) <==>
      forall r | r in Refs(w.config.running, route.pausedKey) ::
        r !in LiftedOn(w.entries[provider].ledger, route.pausedKey)
  {
    assert ConcatFields([]) == [];
  }

  lemma StillAFileAfterDisable(w: World, layout: Layout, provider: string)
    requires provider in w.entries && w.entries[provider].enabled && w.config.managed != map[]
    ensures !Unwritten(Disabled(w, layout, provider, true).config)
  {
    forall i | 0 <= i < |layout.routes|
      ensures forall r | r in Added(w.config.running, layout.routes[i], provider) :: r != ""
    {
      AddedAreFull(w.config.running, layout.routes[i], provider);
    }
    UpdatesAreFull(Plan(w.config.running, layout.routes, provider));
    StillAFile(layout.sources, w.config, PauseUpdates(w.config.running, layout.routes, provider));
  }

  /** What is written is never blank. */
  lemma {:induction false} UpdatesAreFull(plan: seq<Step>)
    requires forall i | 0 <= i < |plan| :: forall r | r in plan[i].added :: r != ""
    ensures forall k | k in PlannedUpdates(plan) :: PlannedUpdates(plan)[k] != ""
  {
    if plan != [] {
      var last := plan[|plan| - 1];
      UpdatesAreFull(plan[..|plan| - 1]);
      if last.added != [] {
        var refs := last.paused + last.added;
        assert refs[|refs| - 1] == last.added[|last.added| - 1] && refs[|refs| - 1] in last.added;
        EndOfFormat(refs);
      }
    }
  }

  lemma EndOfFormat(refs: seq<string>)
    requires refs != [] && refs[|refs| - 1] != ""
    ensures Format(refs) != ""
  {
  }

  lemma AddedAreFull(settings: Settings, route: Route, provider: string)
    ensures forall r | r in Added(settings, route, provider) :: r != ""
  {
    NewPausesFacts(Refs(settings, route.pausedKey), Chain(settings, route), provider);
    ParseRefsClean(TextOf(settings, route.chainKey));
    forall r | r in Chain(settings, route) ensures r != "" {
      if r in Refs(settings, route.chainKey) {
        var k :| 0 <= k < |Refs(settings, route.chainKey)| && Refs(settings, route.chainKey)[k] == r;
        assert CleanField(Refs(settings, route.chainKey)[k]);
      }
    }
  }

  lemma RestoredRoute(
    w: World, route: Route, provider: string, after: seq<string>, lifted: set<string>)
    requires provider in w.entries
    requires Gains(Refs(w.config.running, route.pausedKey), Added(w.config.running, route, provider), after)
    requires lifted == LiftedOn(w.entries[provider].ledger, route.pausedKey)
      + set r | r in Added(w.config.running, route, provider)
    ensures Keep(after, lifted) == Refs(w.config.running, route.pausedKey) <==> Restorable(w, provider, route)
  {
    var before, added := Refs(w.config.running, route.pausedKey), Added(w.config.running, route, provider);
    NewPausesFacts(before, Chain(w.config.running, route), provider);
    RestoredLists(before, added, after, LiftedOn(w.entries[provider].ledger, route.pausedKey), lifted);
  }

  lemma LedgerAfterDisable(w: World, layout: Layout, provider: string, i: nat)
    requires layout.Valid() && i < |layout.routes|
    requires provider in w.entries && w.entries[provider].enabled
    ensures LiftedOn(Disabled(w, layout, provider, true).entries[provider].ledger, layout.routes[i].pausedKey)
      == LiftedOn(w.entries[provider].ledger, layout.routes[i].pausedKey)
         + set r | r in Added(w.config.running, layout.routes[i], provider)
  {
    LiftedByRoutes(w.config.running, layout.routes, provider, i);
    LiftedAppend(
      w.entries[provider].ledger, AddedPairs(w.config.running, layout.routes, provider), layout.routes[i].pausedKey);
  }

  lemma LiftedByRoutes(settings: Settings, routes: seq<Route>, provider: string, i: nat)
    requires DistinctKeys(routes) && i < |routes|
    ensures LiftedOn(AddedPairs(settings, routes, provider), routes[i].pausedKey) ==
      set r | r in Added(settings, routes[i], provider)
  {
    var plan := Plan(settings, routes, provider);
    LiftedByPlan(plan, routes[i].pausedKey);
    assert plan[i] == StepFor(settings, routes[i], provider);
  }

  lemma RestoredLists(
    before: seq<string>, added: seq<string>, after: seq<string>, ledger: set<string>, lifted: set<string>)
    requires before <= after && Distinct(after)
    requires forall r :: r in after <==> r in before || r in ConcatFields(added)
    requires forall r | r in added :: r !in before
    requires lifted == ledger + set r | r in added
    ensures Keep(after, lifted) == before <==>
      && (forall r | r in before :: r !in ledger)
      && (forall r | r in ConcatFields(added) :: r in before || r in added || r in ledger)
  {
    KeepRestores(before, after, lifted);
    assert forall r | r in before :: r in lifted <==> r in ledger;
    assert forall r | r in after && r !in before :: r in ConcatFields(added);
  }

  lemma RefsAfterEnabling(down: World, layout: Layout, provider: string, key: string)
    requires Coherent(layout.sources, down.config) && PauseKey(layout.sources, key)
    requires provider in down.entries && !down.entries[provider].enabled
    ensures var ledger := down.entries[provider].ledger;
      Refs(Enabled(down, layout, provider, true).config.running, key) ==
        if key in layout.sources.locked || ledger == [] then Refs(down.config.running, key)
        else if Changes(down.config.running, ledger, key)
        then Keep(Refs(down.config.running, key), LiftedOn(ledger, key))
        else Refs(Base(layout.sources, down.config), key)
  {
    RefsAfterEnable(down.config, layout, down.entries[provider].ledger, key);
  }

  /** With a clean ledger and no comma in the primary, every route is restorable. */
  lemma PlainRoutesAreRestorable(w: World, provider: string, route: Route)
    requires provider in w.entries && LiftedOn(w.entries[provider].ledger, route.pausedKey) == {}
    requires ',' !in TextOf(w.config.running, route.modelKey)
    ensures Restorable(w, provider, route)
  {
    var chain := Chain(w.config.running, route);
    ChainIsClean(w.config.running, route);
    AddedAreClean(Refs(w.config.running, route.pausedKey), chain, provider);
    ConcatFieldsOfClean(Added(w.config.running, route, provider));
  }

  lemma {:induction false} AddedAreClean(paused: seq<string>, chain: seq<string>, provider: string)
    requires CleanFields(chain)
    ensures CleanFields(NewPauses(paused, chain, provider))
  {
    NewPausesFacts(paused, chain, provider);
    forall k | 0 <= k < |NewPauses(paused, chain, provider)| ensures CleanField(NewPauses(paused, chain, provider)[k]) {
      assert NewPauses(paused, chain, provider)[k] in chain;
    }
  }

  lemma ChainIsClean(settings: Settings, route: Route)
    requires ',' !in TextOf(settings, route.modelKey)
    ensures CleanFields(Chain(settings, route))
  {
    ParseRefsClean(TextOf(settings, route.chainKey));
    TrimTight(IsSpace, TextOf(settings, route.modelKey));
  }

  /** A primary that is two refs joined by a comma passes for one ref of the provider. Disabling
      writes it into the pause list as two; enabling looks for it as one and lifts neither. */
  lemma CommaPrimaryStaysPaused(
    w: World, provider: string, route: Route, first: string, second: string)
    requires provider in w.entries
    requires CleanField(first) && CleanField(second) && Names(first, provider) && '/' in first
    requires TextOf(w.config.running, route.modelKey) == first + [','] + second
    requires Refs(w.config.running, route.pausedKey) == [] && Refs(w.config.running, route.chainKey) == []
    requires LiftedOn(w.entries[provider].ledger, route.pausedKey) == {}
    ensures !Restorable(w, provider, route)
  {
    var primary := first + [','] + second;
    JoinedPrimary(first, second, provider);
    ChainOfPrimary(w.config.running, route, primary);
    OneNewPause(primary, provider);
    FirstPiece(first, second);
    var pieces := ConcatFields([primary]);
    assert Added(w.config.running, route, provider) == [primary];
    assert pieces[0] in pieces && pieces[0] == first;
  }

  lemma JoinedPrimary(first: string, second: string, provider: string)
    requires CleanField(first) && CleanField(second) && Names(first, provider) && '/' in first
    ensures var primary := first + [','] + second;
      primary != "" && primary != first && Strip(primary) == primary && Names(primary, provider)
  {
    var primary := first + [','] + second;
    assert Tight(IsSpace, primary) by {
      assert primary[0] == first[0] && primary[|primary| - 1] == second[|second| - 1];
    }
    TrimOfTight(IsSpace, primary);
    assert primary == first + ([','] + second);
    BeforeSlashPrefix(first, [','] + second);
    assert |primary| > |first|;
  }

  lemma ChainOfPrimary(settings: Settings, route: Route, primary: string)
    requires TextOf(settings, route.modelKey) == primary == Strip(primary) && primary != ""
    requires Refs(settings, route.chainKey) == []
    ensures Chain(settings, route) == [primary]
  {
  }

  lemma OneNewPause(ref: string, provider: string)
    requires Names(ref, provider)
    ensures NewPauses([], [ref], provider) == [ref]
  {
    var chain := [ref];
    assert chain[..|chain| - 1] == [];
    assert NewPauses([], [], provider) == [];
  }

  lemma FirstPiece(first: string, second: string)
    requires CleanField(first)
    ensures var all := ConcatFields([first + [','] + second]); all != [] && all[0] == first
  {
    SplitAppend(first, ',', second);
    KeepFieldsAppend(Split(first, ','), Split(second, ','));
    FieldsOfClean(first);
    var primary := first + [','] + second;
    assert [primary][1..] == [];
    assert ConcatFields([primary]) == Fields(primary) + ConcatFields([]);
  }

  /** On a locked list the ledger records pauses that were never made: after an accepted disable of
      an enabled provider, its refs on the route are on the ledger and not on the list. */
  lemma LockedListIsRecorded(w: World, layout: Layout, provider: string, i: nat, ref: string)
    requires layout.Valid() && i < |layout.routes| && layout.routes[i].pausedKey in layout.sources.locked
    requires provider in w.entries && w.entries[provider].enabled && Coherent(layout.sources, w.config)
    requires ref in Added(w.config.running, layout.routes[i], provider)
    ensures var key, down := layout.routes[i].pausedKey, Disabled(w, layout, provider, true);
      (key, ref) in down.entries[provider].ledger && !PausedIn(down.config, key, ref)
  {
    var key, down := layout.routes[i].pausedKey, Disabled(w, layout, provider, true);
    RefsAfterDisable(w.config, layout, i, provider);
    LedgerAfterDisable(w, layout, provider, i);
    NewPausesFacts(Refs(w.config.running, key), Chain(w.config.running, layout.routes[i]), provider);
    assert ref in LiftedOn(down.entries[provider].ledger, key);
    var pair :| pair in down.entries[provider].ledger && pair.0 == key && pair.1 == ref;
    assert pair == (key, ref);
  }

  // ----- no user-made pause is ever lifted

  /** What the admin routes do to the pauses. A ref with commas is paused as its pieces. */
  datatype Op =
    | Disable(provider: string, accepted: bool)
    | Enable(provider: string, accepted: bool)
    | SetKeys(provider: string, apiKeys: seq<string>)
    | UserPause(key: string, ref: string)
    | UserUnpause(key: string, ref: string)

  function Apply(w: World, layout: Layout, op: Op): World {
    match op
    case Disable(p, accepted) => Disabled(w, layout, p, accepted)
    case Enable(p, accepted) => Enabled(w, layout, p, accepted)
    case SetKeys(p, keys) => if p in w.entries then SetEntry(w, p, w.entries[p].(apiKeys := keys)) else w
    case UserPause(key, ref) => WriteRefs(w, layout, key, WithPause(Refs(w.config.running, key), ref))
    case UserUnpause(key, ref) => WriteRefs(w, layout, key, Keep(Refs(w.config.running, key), {ref}))
  }

  function WriteRefs(w: World, layout: Layout, key: string, refs: seq<string>): World {
    w.(config := Write(layout.sources, w.config, map[key := Format(refs)]))
  }

  ghost predicate OnLedger(w: World, pair: Pair) {
    exists p :: p in w.entries && pair in w.entries[p].ledger
  }

  /** The pauses of a click. */
  ghost function Pieces(key: string, ref: string): set<Pair> {
    set r | r in Fields(ref) :: (key, r)
  }

  /** A click is on a pause list, and a pause click pauses nothing a ledger holds. */
  ghost predicate Allowed(w: World, layout: Layout, op: Op) {
    && (op.UserPause? || op.UserUnpause? ==> PauseKey(layout.sources, op.key))
    && (op.UserPause? ==> forall pair | pair in Pieces(op.key, op.ref) :: !OnLedger(w, pair))
  }

  ghost function After(w: World, layout: Layout, ops: seq<Op>): World {
    if ops == [] then w else Apply(After(w, layout, ops[..|ops| - 1]), layout, ops[|ops| - 1])
  }

  /** The pauses the user has made and not taken back, starting from those in `mine`. On a locked
      list the user makes and takes back nothing. */
  ghost function UserMade(layout: Layout, mine: set<Pair>, ops: seq<Op>): set<Pair> {
    if ops == [] then mine
    else
      var before := UserMade(layout, mine, ops[..|ops| - 1]);
      match ops[|ops| - 1]
      case UserPause(key, ref) => if key in layout.sources.locked then before else before + Pieces(key, ref)
      case UserUnpause(key, ref) => if key in layout.sources.locked then before else before - {(key, ref)}
      case _ => before
  }

  /** The last thing said of the provider's switch. */
  ghost function LastSwitch(provider: string, before: bool, ops: seq<Op>): bool {
    if ops == [] then before
    else
      match ops[|ops| - 1]
      case Disable(p, _) => p != provider && LastSwitch(provider, before, ops[..|ops| - 1])
      case Enable(p, _) => p == provider || LastSwitch(provider, before, ops[..|ops| - 1])
      case _ => LastSwitch(provider, before, ops[..|ops| - 1])
  }

  /** Over any run a provider is on or off as it was last switched, whether the settings writes were
      accepted or not; and the run neither brings in a provider nor loses one. */
  lemma {:induction false} SwitchIsHonoured(w: World, layout: Layout, ops: seq<Op>, provider: string)
    ensures After(w, layout, ops).entries.Keys == w.entries.Keys
    ensures provider in w.entries ==>
      After(w, layout, ops).entries[provider].enabled == LastSwitch(provider, w.entries[provider].enabled, ops)
  {
    if ops != [] {
      SwitchIsHonoured(w, layout, ops[..|ops| - 1], provider);
    }
  }

  /** Every pair is paused, on no ledger, and its list is lasting. */
  ghost predicate SafelyPaused(layout: Layout, w: World, pairs: set<Pair>) {
    Coherent(layout.sources, w.config) && forall pair | pair in pairs :: SafePair(layout, w, pair)
  }

  ghost predicate SafePair(layout: Layout, w: World, pair: Pair) {
    && PauseKey(layout.sources, pair.0)
    && PausedIn(w.config, pair.0, pair.1)
    && Lasting(layout.sources, w.config, pair.0)
    && !OnLedger(w, pair)
  }

  lemma AddedPairsAreNew(settings: Settings, routes: seq<Route>, provider: string)
    ensures forall pair | pair in AddedPairs(settings, routes, provider) ::
      pair.1 !in Refs(settings, pair.0) && Names(pair.1, provider)
  {
    var plan := Plan(settings, routes, provider);
    forall pair | pair in PlannedPairs(plan)
      ensures pair.1 !in Refs(settings, pair.0) && Names(pair.1, provider)
    {
      var i := PairComesFrom(plan, pair);
      NewPausesFacts(Refs(settings, pair.0), Chain(settings, routes[i]), provider);
    }
  }

  lemma {:induction false} PairComesFrom(plan: seq<Step>, pair: Pair) returns (i: nat)
    requires pair in PlannedPairs(plan)
    ensures i < |plan| && plan[i].key == pair.0 && pair.1 in plan[i].added
  {
    i := |plan| - 1;
    if pair !in PairsOf(plan[i].key, plan[i].added) {
      i := PairComesFrom(plan[..i], pair);
    }
  }

  /** An accepted write keeps safe pairs safe if every list it writes keeps them. */
  lemma WriteIsSafe(
    layout: Layout, w: World, updates: Settings, pairs: set<Pair>, v: World, left: set<Pair>)
    requires SafelyPaused(layout, w, pairs) && v.config == Write(layout.sources, w.config, updates)
    requires forall pair | pair in left :: PauseKey(layout.sources, pair.0) && !OnLedger(v, pair)
    requires forall pair | pair in left ::
      if pair.0 in layout.sources.locked || pair.0 !in updates then pair in pairs
      else pair.1 in ParseRefs(updates[pair.0])
    ensures SafelyPaused(layout, v, left)
  {
    WrittenIsCoherent(layout.sources, w.config, updates);
    forall pair | pair in left ensures SafePair(layout, v, pair) {
      assert pair in pairs ==> SafePair(layout, w, pair);
      StaysPaused(layout.sources, w.config, updates, pair.0, pair.1);
    }
  }

  lemma SameConfigIsSafe(layout: Layout, w: World, v: World, pairs: set<Pair>)
    requires SafelyPaused(layout, w, pairs) && v.config == w.config
    requires forall q | q in v.entries :: q in w.entries && v.entries[q].ledger == w.entries[q].ledger
    ensures SafelyPaused(layout, v, pairs)
  {
    forall pair | pair in pairs ensures SafePair(layout, v, pair) {
      assert SafePair(layout, w, pair);
    }
  }

  lemma DisableIsSafe(w: World, layout: Layout, provider: string, accepted: bool, pairs: set<Pair>)
    requires layout.Valid() && SafelyPaused(layout, w, pairs)
    ensures SafelyPaused(layout, Disabled(w, layout, provider, accepted), pairs)
  {
    var v := Disabled(w, layout, provider, accepted);
    if provider in w.entries && w.entries[provider].enabled && accepted {
      var updates := PauseUpdates(w.config.running, layout.routes, provider);
      AddedPairsAreNew(w.config.running, layout.routes, provider);
      forall pair | pair in pairs
        ensures PauseKey(layout.sources, pair.0) && !OnLedger(v, pair)
        ensures pair.0 in updates ==> pair.1 in ParseRefs(updates[pair.0])
      {
        assert SafePair(layout, w, pair);
        NotOnNewLedger(w, layout, provider, pair);
        UpdateKeepsPauses(w.config.running, layout, provider, pair.0);
      }
      WriteIsSafe(layout, w, updates, pairs, v, pairs);
    } else {
      SameConfigIsSafe(layout, w, v, pairs);
    }
  }

  lemma NotOnNewLedger(w: World, layout: Layout, provider: string, pair: Pair)
    requires provider in w.entries && PausedIn(w.config, pair.0, pair.1) && !OnLedger(w, pair)
    ensures !OnLedger(Disabled(w, layout, provider, true), pair)
  {
    var v := Disabled(w, layout, provider, true);
    AddedPairsAreNew(w.config.running, layout.routes, provider);
    assert forall p | p in w.entries :: pair !in w.entries[p].ledger;
    assert forall p | p in v.entries :: pair !in v.entries[p].ledger;
  }

  lemma UpdateKeepsPauses(settings: Settings, layout: Layout, provider: string, key: string)
    requires layout.Valid()
    ensures var updates := PauseUpdates(settings, layout.routes, provider);
      key in updates ==> forall r | r in Refs(settings, key) :: r in ParseRefs(updates[key])
  {
    if i :| 0 <= i < |layout.routes| && layout.routes[i].pausedKey == key {
      UpdateOfRoute(settings, layout, i, provider);
      ParseRefsClean(TextOf(settings, key));
      ParsedTogether(Refs(settings, key), Added(settings, layout.routes[i], provider));
    } else {
      NoUpdateOf(Plan(settings, layout.routes, provider), key);
    }
  }

  lemma EnableIsSafe(w: World, layout: Layout, provider: string, accepted: bool, pairs: set<Pair>)
    requires SafelyPaused(layout, w, pairs)
    ensures SafelyPaused(layout, Enabled(w, layout, provider, accepted), pairs)
  {
    var v := Enabled(w, layout, provider, accepted);
    if provider in w.entries && !w.entries[provider].enabled && w.entries[provider].ledger != [] && accepted {
      var ledger := w.entries[provider].ledger;
      var updates := UnpauseUpdates(w.config.running, layout.sources.fields, ledger);
      forall pair | pair in pairs
        ensures PauseKey(layout.sources, pair.0) && !OnLedger(v, pair)
        ensures pair.0 in updates ==> pair.1 in ParseRefs(updates[pair.0])
      {
        assert SafePair(layout, w, pair);
        assert forall p | p in w.entries :: pair !in w.entries[p].ledger;
        assert forall p | p in v.entries :: pair !in v.entries[p].ledger;
        LiftedUpdateKeeps(w.config.running, layout, ledger, pair);
      }
      WriteIsSafe(layout, w, updates, pairs, v, pairs);
    } else {
      SameConfigIsSafe(layout, w, v, pairs);
    }
  }

  lemma LiftedUpdateKeeps(settings: Settings, layout: Layout, ledger: seq<Pair>, pair: Pair)
    requires pair.1 in Refs(settings, pair.0) && pair !in ledger
    ensures var updates := UnpauseUpdates(settings, layout.sources.fields, ledger);
      pair.0 in updates ==> pair.1 in ParseRefs(updates[pair.0])
  {
    UnpauseUpdateOf(settings, layout.sources.fields, ledger, pair.0);
    KeepReadsBack(settings, pair.0, LiftedOn(ledger, pair.0));
    KeepFacts(Refs(settings, pair.0), LiftedOn(ledger, pair.0));
    assert pair == (pair.0, pair.1);
  }

  /** A write of one list by the user keeps the pauses `left` that were safe or are written. */
  lemma UserWriteIsSafe(
    w: World, layout: Layout, key: string, refs: seq<string>, pairs: set<Pair>, left: set<Pair>)
    requires SafelyPaused(layout, w, pairs) && PauseKey(layout.sources, key)
    requires forall pair | pair in left ::
      pair in pairs || (pair.0 == key && key !in layout.sources.locked && !OnLedger(w, pair))
    requires forall pair | pair in left && pair.0 == key && key !in layout.sources.locked ::
      pair.1 in ParseRefs(Format(refs))
    ensures SafelyPaused(layout, WriteRefs(w, layout, key, refs), left)
  {
    var v, updates := WriteRefs(w, layout, key, refs), map[key := Format(refs)];
    forall pair | pair in left ensures PauseKey(layout.sources, pair.0) && !OnLedger(v, pair) {
      assert pair in pairs ==> SafePair(layout, w, pair);
      assert OnLedger(v, pair) <==> OnLedger(w, pair);
    }
    WriteIsSafe(layout, w, updates, pairs, v, left);
  }

  lemma UserPauseIsSafe(w: World, layout: Layout, key: string, ref: string, pairs: set<Pair>)
    requires SafelyPaused(layout, w, pairs) && PauseKey(layout.sources, key)
    requires forall pair | pair in Pieces(key, ref) :: !OnLedger(w, pair)
    ensures SafelyPaused(layout, WriteRefs(w, layout, key, WithPause(Refs(w.config.running, key), ref)),
                         if key in layout.sources.locked then pairs else pairs + Pieces(key, ref))
  {
    var left := if key in layout.sources.locked then pairs else pairs + Pieces(key, ref);
    var refs := WithPause(Refs(w.config.running, key), ref);
    WithPauseReadsBack(w.config.running, key, ref);
    forall pair | pair in left && pair.0 == key && key !in layout.sources.locked
      ensures pair.1 in ParseRefs(Format(refs))
    {
      assert pair in pairs ==> SafePair(layout, w, pair);
    }
    UserWriteIsSafe(w, layout, key, refs, pairs, left);
  }

  lemma UserUnpauseIsSafe(w: World, layout: Layout, key: string, ref: string, pairs: set<Pair>)
    requires SafelyPaused(layout, w, pairs) && PauseKey(layout.sources, key)
    ensures SafelyPaused(layout, WriteRefs(w, layout, key, Keep(Refs(w.config.running, key), {ref})),
                         if key in layout.sources.locked then pairs else pairs - {(key, ref)})
  {
    var left := if key in layout.sources.locked then pairs else pairs - {(key, ref)};
    forall pair | pair in left && pair.0 == key && key !in layout.sources.locked
      ensures pair.1 in ParseRefs(Format(Keep(Refs(w.config.running, key), {ref})))
    {
      assert SafePair(layout, w, pair);
      assert pair == (pair.0, pair.1);
      OthersAreKept(w.config.running, key, ref, pair.1);
    }
    UserWriteIsSafe(w, layout, key, Keep(Refs(w.config.running, key), {ref}), pairs, left);
  }

  lemma OthersAreKept(settings: Settings, key: string, ref: string, other: string)
    requires other in Refs(settings, key) && other != ref
    ensures other in ParseRefs(Format(Keep(Refs(settings, key), {ref})))
  {
    KeepReadsBack(settings, key, {ref});
    KeepFacts(Refs(settings, key), {ref});
  }

  /** Over any run of disables and enables of any providers, refused writes included, key edits and
      pauses and unpauses by the user, no pause the user makes is ever lifted by anyone but the user;
      nor is one that was there before, if its list is lasting. */
  lemma {:induction false} UserPausesSurvive(w: World, layout: Layout, mine: set<Pair>, ops: seq<Op>)
    requires layout.Valid() && SafelyPaused(layout, w, mine)
    requires forall n | 0 <= n < |ops| :: Allowed(After(w, layout, ops[..n]), layout, ops[n])
    ensures SafelyPaused(layout, After(w, layout, ops), UserMade(layout, mine, ops))
  {
    if ops != [] {
      var front, op := ops[..|ops| - 1], ops[|ops| - 1];
      forall n | 0 <= n < |front| ensures Allowed(After(w, layout, front[..n]), layout, front[n]) {
        assert front[..n] == ops[..n];
      }
      UserPausesSurvive(w, layout, mine, front);
      var v, made := After(w, layout, front), UserMade(layout, mine, front);
      assert Allowed(v, layout, op);
      match op {
        case Disable(p, accepted) => DisableIsSafe(v, layout, p, accepted, made);
        case Enable(p, accepted) => EnableIsSafe(v, layout, p, accepted, made);
        case SetKeys(p, keys) => SameConfigIsSafe(layout, v, Apply(v, layout, op), made);
        case UserPause(key, ref) => UserPauseIsSafe(v, layout, key, ref, made);
        case UserUnpause(key, ref) => UserUnpauseIsSafe(v, layout, key, ref, made);
      }
    }
  }

  /** A pause is lifted by an accepted enable exactly when its list is not locked, the ledger is not
      empty, and its pair is on the ledger, or no pair of its list is lifted and the write does not start
      from it: the side conditions of `UserPausesSurvive` are needed. */
  lemma LedgerPairIsLifted(w: World, layout: Layout, provider: string, pair: Pair)
    requires provider in w.entries && !w.entries[provider].enabled
    requires Coherent(layout.sources, w.config) && PauseKey(layout.sources, pair.0)
    requires PausedIn(w.config, pair.0, pair.1)
    ensures var ledger := w.entries[provider].ledger;
      !PausedIn(Enabled(w, layout, provider, true).config, pair.0, pair.1) <==>
        && pair.0 !in layout.sources.locked && ledger != []
        && (|| pair in ledger
            || (&& !Changes(w.config.running, ledger, pair.0)
                && pair.1 !in Refs(Base(layout.sources, w.config), pair.0)))
  {
    var ledger := w.entries[provider].ledger;
    RefsAfterEnabling(w, layout, provider, pair.0);
    KeepFacts(Refs(w.config.running, pair.0), LiftedOn(ledger, pair.0));
    assert pair == (pair.0, pair.1);
  }

  // ----- providers do not lift each other's pauses

  ghost predicate LedgersNameTheirOwn(w: World) {
    forall p, pair | p in w.entries && pair in w.entries[p].ledger :: Names(pair.1, p)
  }

  lemma LedgersStayOwn(w: World, layout: Layout, op: Op)
    requires LedgersNameTheirOwn(w)
    ensures LedgersNameTheirOwn(Apply(w, layout, op))
  {
    if op.Disable? {
      AddedPairsAreNew(w.config.running, layout.routes, op.provider);
    }
  }

  /** Enabling one provider lifts a pause of a ref that names another exactly when it writes, the list
      is not locked, nothing on it is lifted, and the write does not start from the pause. */
  lemma EnableLeavesOthersAlone(
    w: World, layout: Layout, provider: string, accepted: bool, key: string, ref: string)
    requires LedgersNameTheirOwn(w) && Coherent(layout.sources, w.config) && PauseKey(layout.sources, key)
    requires PausedIn(w.config, key, ref) && !Names(ref, provider)
    ensures !PausedIn(Enabled(w, layout, provider, accepted).config, key, ref) <==>
      && provider in w.entries && !w.entries[provider].enabled && accepted && w.entries[provider].ledger != []
      && key !in layout.sources.locked && !Changes(w.config.running, w.entries[provider].ledger, key)
      && ref !in Refs(Base(layout.sources, w.config), key)
  {
    if provider in w.entries && !w.entries[provider].enabled && accepted {
      assert (key, ref) !in w.entries[provider].ledger;
      LedgerPairIsLifted(w, layout, provider, (key, ref));
    }
  }
}
