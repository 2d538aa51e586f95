/** The list of models offered to a client, and the ids it is written in
    (model_catalog.py, gateway_model_ids.py, tier_refs.py). */
module ModelCatalog {
  import opened Options
  import opened Text

  datatype Model = Model(id: string, displayName: string, createdAt: string)

  const DISCOVERED_AT := "1970-01-01T00:00:00Z"
  const GATEWAY := "anthropic"
  const NO_THINKING := "claude-3-freecc-no-thinking"

  const SUPPORTED_CLAUDE_MODELS: seq<Model> := [
    Model("claude-fable-5", "Claude Fable 5", "2026-06-09T00:00:00Z"),
    Model("claude-opus-4-20250514", "Claude Opus 4", "2025-05-14T00:00:00Z"),
    Model("claude-sonnet-4-20250514", "Claude Sonnet 4", "2025-05-14T00:00:00Z"),
    Model("claude-haiku-4-20250514", "Claude Haiku 4", "2025-05-14T00:00:00Z"),
    Model("claude-3-opus-20240229", "Claude 3 Opus", "2024-02-29T00:00:00Z"),
    Model("claude-3-5-sonnet-20241022", "Claude 3.5 Sonnet", "2024-10-22T00:00:00Z"),
    Model("claude-3-haiku-20240307", "Claude 3 Haiku", "2024-03-07T00:00:00Z"),
    Model("claude-3-5-haiku-20241022", "Claude 3.5 Haiku", "2024-10-22T00:00:00Z")
  ]

  datatype Tier = Tier(name: string, caption: string)

  const TIER_ORDER: seq<Tier> := [
    Tier("best", "Best"), Tier("good", "Good"), Tier("medium", "Medium"),
    Tier("cheap", "Cheap"), Tier("vision", "Vision")
  ]

  // ----- ids

  function GatewayId(ref: string): string {
    GATEWAY + "/" + ref
  }

  function NoThinkingId(ref: string): string {
    NO_THINKING + "/" + ref
  }

  function TierRef(tier: Tier): string {
    "mcc/" + tier.name
  }

  datatype Decoded = Decoded(provider: string, model: string, reasoningOff: bool)

  /** `decode_gateway_model_id` */
  function Decode(name: string): Option<Decoded> {
    match Partition(name)
    case None => None
    case Some((prefix, rest)) =>
      if prefix != GATEWAY && prefix != NO_THINKING then None
      else
        match Partition(rest)
        case None => None
        case Some((provider, model)) =>
          if model == "" then None else Some(Decoded(provider, model, prefix == NO_THINKING))
  }

  /** A ref that names a provider and a model. */
  predicate FullRef(ref: string) {
    Partition(ref).Some? && Partition(ref).value.1 != ""
  }

  /** Only the ids of full refs decode. */
  lemma DecodesOnlyIds(name: string)
    ensures Decode(name).Some? ==>
      exists ref :: FullRef(ref) && (name == GatewayId(ref) || name == NoThinkingId(ref))
  {
    PartitionJoins(name);
    if Decode(name).Some? {
      var rest := Partition(name).value.1;
      assert FullRef(rest) && (name == GatewayId(rest) || name == NoThinkingId(rest));
    }
  }

  /** Both ids of a full ref decode to its provider and model and to whether thinking is off;
      those of any other ref do not decode. */
  lemma IdsDecode(ref: string)
    ensures FullRef(ref) ==>
      && Decode(GatewayId(ref)).Some? && Decode(NoThinkingId(ref)).Some?
      && (var d := Decode(GatewayId(ref)).value; d.provider + "/" + d.model == ref && !d.reasoningOff)
      && (var d := Decode(NoThinkingId(ref)).value; d.provider + "/" + d.model == ref && d.reasoningOff)
    ensures !FullRef(ref) ==> Decode(GatewayId(ref)).None? && Decode(NoThinkingId(ref)).None?
  {
    PartitionAt(GATEWAY, ref);
    PartitionAt(NO_THINKING, ref);
    PartitionJoins(ref);
  }

  // ----- stable deduplication by id

  function Ids(models: seq<Model>): (ids: seq<string>)
    ensures |ids| == |models| && forall i | 0 <= i < |models| :: ids[i] == models[i].id
  {
    seq(|models|, i requires 0 <= i < |models| => models[i].id)
  }

  /** The first model of every id, in order. */
  function FirstOfEachId(models: seq<Model>): seq<Model> {
    if models == [] then []
    else
      var before := FirstOfEachId(models[..|models| - 1]);
      var model := models[|models| - 1];
      if model.id in Ids(before) then before else before + [model]
  }

  ghost predicate HasId(models: seq<Model>, id: string) {
    exists i :: 0 <= i < |models| && models[i].id == id
  }

  /** Where the first model with an id is. */
  ghost predicate FirstAt(models: seq<Model>, i: int) {
    0 <= i < |models| && forall j | 0 <= j < i :: models[j].id != models[i].id
  }

  lemma {:induction false} FirstOfEachIdFacts(models: seq<Model>)
    ensures Distinct(Ids(FirstOfEachId(models)))
    ensures forall m :: m in FirstOfEachId(models) <==> IsFirst(models, m)
    ensures forall id :: HasId(FirstOfEachId(models), id) <==> HasId(models, id)
  {
    if models != [] {
      var front, last := models[..|models| - 1], models[|models| - 1];
      FirstOfEachIdFacts(front);
      HasIdStep(models);
      var before := FirstOfEachId(front);
      assert last.id in Ids(before) <==> HasId(before, last.id);
      KeptStep(models, before);
      HasIdAppend(before, last);
    }
  }

  lemma KeptStep(models: seq<Model>, before: seq<Model>)
    requires models != []
    requires var front := models[..|models| - 1];
      forall m :: m in before <==> IsFirst(front, m)
    ensures var front, last := models[..|models| - 1], models[|models| - 1];
      var now := if HasId(front, last.id) then before else before + [last];
      forall m :: m in now <==> IsFirst(models, m)
  {
    var front, last := models[..|models| - 1], models[|models| - 1];
    var now := if HasId(front, last.id) then before else before + [last];
    forall m ensures m in now <==> IsFirst(models, m) {
      IsFirstStep(models, m);
    }
  }

  /** The model is the first with its id. */
  ghost predicate IsFirst(models: seq<Model>, m: Model) {
    exists i :: FirstAt(models, i) && models[i] == m
  }

  lemma IsFirstStep(models: seq<Model>, m: Model)
    requires models != []
    ensures var front, last := models[..|models| - 1], models[|models| - 1];
      IsFirst(models, m) <==> IsFirst(front, m) || (m == last && !HasId(front, last.id))
  {
    var front := models[..|models| - 1];
    FirstAtStep(models);
    if IsFirst(front, m) {
      var i :| FirstAt(front, i) && front[i] == m;
      assert FirstAt(models, i) && models[i] == m;
    }
    if IsFirst(models, m) {
      var i :| FirstAt(models, i) && models[i] == m;
      LastOrEarlier(models, i);
    }
    if m == models[|front|] && !HasId(front, m.id) {
      assert FirstAt(models, |front|);
    }
  }

  lemma LastOrEarlier(models: seq<Model>, i: int)
    requires FirstAt(models, i)
    ensures var front, last := models[..|models| - 1], models[|models| - 1];
      (FirstAt(front, i) && front[i] == models[i]) || (i == |front| && !HasId(front, last.id))
  {
    FirstAtStep(models);
  }

  lemma HasIdAppend(models: seq<Model>, m: Model)
    ensures forall id :: HasId(models + [m], id) <==> HasId(models, id) || id == m.id
  {
    forall id ensures HasId(models + [m], id) <==> HasId(models, id) || id == m.id {
      assert (models + [m])[|models|] == m;
      assert forall i | 0 <= i < |models| :: (models + [m])[i] == models[i];
    }
  }

  lemma HasIdStep(models: seq<Model>)
    requires models != []
    ensures var front := models[..|models| - 1];
      forall id :: HasId(models, id) <==> HasId(front, id) || id == models[|models| - 1].id
  {
    HasIdAppend(models[..|models| - 1], models[|models| - 1]);
    assert models == models[..|models| - 1] + [models[|models| - 1]];
  }

  lemma FirstAtStep(models: seq<Model>)
    requires models != []
    ensures var front, last := models[..|models| - 1], models[|models| - 1];
      && (forall i | 0 <= i < |front| :: FirstAt(models, i) <==> FirstAt(front, i))
      && (FirstAt(models, |front|) <==> !HasId(front, last.id))
  {
  }

  /** The kept models are in the order of their first occurrences. */
  lemma {:induction false} FirstsInOrder(models: seq<Model>, a: nat, b: nat)
    requires a < b < |FirstOfEachId(models)|
    ensures exists i, j ::
      && i < j && FirstAt(models, i) && FirstAt(models, j)
      && models[i] == FirstOfEachId(models)[a] && models[j] == FirstOfEachId(models)[b]
  {
    var front := models[..|models| - 1];
    FirstAtStep(models);
    FirstOfEachIdFacts(front);
    var before := FirstOfEachId(front);
    if b < |before| {
      FirstsInOrder(front, a, b);
      var i, j :| i < j && FirstAt(front, i) && FirstAt(front, j) && front[i] == before[a] && front[j] == before[b];
      assert FirstAt(models, i) && FirstAt(models, j);
    } else {
      assert before[a] in before;
      var i :| FirstAt(front, i) && front[i] == before[a];
      assert FirstAt(models, i);
      assert FirstAt(models, |front|);
    }
  }

  // ----- the candidates

  /** A provider's model ref, and whether it supports thinking where that is known. */
  datatype Source = Source(ref: string, thinking: Option<bool>)

  /** What the list is built from. `primary` gives the first model of a tier's route. */
  datatype Inputs = Inputs(
    configured: seq<Source>,
    cached: seq<Source>,
    visible: string -> bool,
    tierAliases: bool,
    primary: string -> string
  )

  function Discovered(id: string, displayName: string): Model {
    Model(id, displayName, DISCOVERED_AT)
  }

  function Variants(s: Source): seq<Model> {
    (if s.thinking != Some(false) then [Discovered(GatewayId(s.ref), s.ref)] else [])
    + [Discovered(NoThinkingId(s.ref), s.ref + " (no thinking)")]
  }

  function VisibleVariants(visible: string -> bool, sources: seq<Source>): seq<Model> {
    if sources == [] then []
    else
      var s := sources[|sources| - 1];
      VisibleVariants(visible, sources[..|sources| - 1]) + if visible(s.ref) then Variants(s) else []
  }

  function TierName(tier: Tier, primary: string): string {
    if primary == "" then tier.caption else tier.caption + " (" + primary + ")"
  }

  function TierModels(primary: string -> string, tiers: seq<Tier>): seq<Model> {
    if tiers == [] then []
    else
      var tier := tiers[|tiers| - 1];
      TierModels(primary, tiers[..|tiers| - 1]) + TierPair(tier, TierName(tier, primary(tier.name)))
  }

  /** Both spellings of a tier. */
  function TierPair(tier: Tier, name: string): seq<Model> {
    [Discovered(TierRef(tier), name), Discovered(GatewayId(TierRef(tier)), name)]
  }

  /** Everything that asks to be listed, in the order in which it asks. */
  function CandidatesOf(inputs: Inputs, claude: seq<Model>, tiers: seq<Tier>): seq<Model> {
    VisibleVariants(inputs.visible, inputs.configured)
    + VisibleVariants(inputs.visible, inputs.cached)
    + claude
    + if inputs.tierAliases then TierModels(inputs.primary, tiers) else []
  }

  function Candidates(inputs: Inputs): seq<Model> {
    CandidatesOf(inputs, SUPPORTED_CLAUDE_MODELS, TIER_ORDER)
  }

  // ----- building the list

  datatype Response = Response(data: seq<Model>, firstId: Option<string>, lastId: Option<string>)

  /** The `models` list and the `seen` set, with the candidates met so far. */
  class ModelList {
    var models: seq<Model>
    var seen: set<string>
    ghost var candidates: seq<Model>

    ghost predicate Valid()
      reads this
    {
      models == FirstOfEachId(candidates) && forall id :: id in seen <==> id in Ids(models)
    }

    constructor ()
      ensures Valid() && candidates == []
    {
      models, seen, candidates := [], {}, [];
    }

    /** `_append_unique_model` */
    method AppendUnique(model: Model)
      requires Valid()
      modifies this
      ensures Valid() && candidates == old(candidates) + [model]
    {
      assert (candidates + [model])[..|candidates|] == candidates;
      candidates := candidates + [model];
      if model.id in seen {
        return;
      }
      IdsAppend(models, model);
      seen := seen + {model.id};
      models := models + [model];
    }

    /** `_append_provider_model_variants` */
    method AppendVariants(source: Source)
      requires Valid()
      modifies this
      ensures Valid() && candidates == old(candidates) + Variants(source)
    {
      if source.thinking != Some(false) {
        AppendUnique(Discovered(GatewayId(source.ref), source.ref));
      }
      AppendUnique(Discovered(NoThinkingId(source.ref), source.ref + " (no thinking)"));
    }

    method AppendVisible(visible: string -> bool, sources: seq<Source>)
      requires Valid()
      modifies this
      ensures Valid() && candidates == old(candidates) + VisibleVariants(visible, sources)
    {
      for n := 0 to |sources|
        invariant Valid() && candidates == old(candidates) + VisibleVariants(visible, sources[..n])
      {
        assert sources[..n + 1][..n] == sources[..n];
        if !visible(sources[n].ref) {
          continue;
        }
        AppendVariants(sources[n]);
      }
      assert sources[..|sources|] == sources;
    }

    method AppendAll(models: seq<Model>)
      requires Valid()
      modifies this
      ensures Valid() && candidates == old(candidates) + models
    {
      for n := 0 to |models|
        invariant Valid() && candidates == old(candidates) + models[..n]
      {
        AppendUnique(models[n]);
      }
      assert models[..|models|] == models;
    }

    method AppendTier(tier: Tier, route: string)
      requires Valid()
      modifies this
      ensures Valid() && candidates == old(candidates) + TierPair(tier, TierName(tier, route))
    {
      var ref := TierRef(tier);
      var name := if route != "" then tier.caption + " (" + route + ")" else tier.caption;
      AppendUnique(Discovered(ref, name));
      AppendUnique(Discovered(GatewayId(ref), name));
    }

    method AppendTiers(primary: string -> string, tiers: seq<Tier>)
      requires Valid()
      modifies this
      ensures Valid() && candidates == old(candidates) + TierModels(primary, tiers)
    {
      for n := 0 to |tiers|
        invariant Valid() && candidates == old(candidates) + TierModels(primary, tiers[..n])
      {
        TierModelsStep(primary, tiers, n);
        AppendTier(tiers[n], primary(tiers[n].name));
      }
      assert tiers[..|tiers|] == tiers;
    }
  }

  lemma TierModelsStep(primary: string -> string, tiers: seq<Tier>, n: nat)
    requires n < |tiers|
    ensures var name := TierName(tiers[n], primary(tiers[n].name));
      TierModels(primary, tiers[..n + 1]) == TierModels(primary, tiers[..n]) + TierPair(tiers[n], name)
  {
    assert tiers[..n + 1][..n] == tiers[..n];
  }

  lemma IdsAppend(models: seq<Model>, m: Model)
    ensures Ids(models + [m]) == Ids(models) + [m.id]
  {
  }

  method BuildFrom(inputs: Inputs, claude: seq<Model>, tiers: seq<Tier>) returns (models: seq<Model>)
    ensures models == FirstOfEachId(CandidatesOf(inputs, claude, tiers))
  {
    ghost var configured := VisibleVariants(inputs.visible, inputs.configured);
    ghost var cached := VisibleVariants(inputs.visible, inputs.cached);
    var list := new ModelList();
    list.AppendVisible(inputs.visible, inputs.configured);
    assert list.candidates == configured;
    list.AppendVisible(inputs.visible, inputs.cached);
    list.AppendAll(claude);
    ghost var untiered := configured + cached + claude;
    assert list.candidates == untiered;
    if inputs.tierAliases {
      list.AppendTiers(inputs.primary, tiers);
    }
    assert untiered + [] == untiered;
    models := list.models;
  }

  /** `build_models_list_response` */
  method BuildModelsListResponse(inputs: Inputs) returns (response: Response)
    ensures response.data == FirstOfEachId(Candidates(inputs))
    ensures response.firstId == if response.data == [] then None else Some(response.data[0].id)
    ensures response.lastId == if response.data == [] then None else Some(response.data[|response.data| - 1].id)
  {
    var models := BuildFrom(inputs, SUPPORTED_CLAUDE_MODELS, TIER_ORDER);
    response := Response(
      models,
      if models != [] then Some(models[0].id) else None,
      if models != [] then Some(models[|models| - 1].id) else None);
  }

  // ----- what is listed

  /** Some visible source asks for the ref, with thinking unless `plain`. */
  ghost predicate Asked(visible: string -> bool, sources: seq<Source>, ref: string, thinking: bool) {
    && visible(ref)
    && exists i :: 0 <= i < |sources| && sources[i].ref == ref && (thinking ==> sources[i].thinking != Some(false))
  }

  lemma IdsDiffer(a: string, b: string)
    ensures GatewayId(a) == GatewayId(b) <==> a == b
    ensures NoThinkingId(a) == NoThinkingId(b) <==> a == b
    ensures GatewayId(a) != NoThinkingId(b)
  {
    PartitionAt(GATEWAY, a);
    PartitionAt(GATEWAY, b);
    PartitionAt(NO_THINKING, a);
    PartitionAt(NO_THINKING, b);
    assert GATEWAY[0] != NO_THINKING[0];
  }

  lemma HasIdConcat(a: seq<Model>, b: seq<Model>, id: string)
    ensures HasId(a + b, id) <==> HasId(a, id) || HasId(b, id)
  {
    var all := a + b;
    assert forall i | 0 <= i < |a| :: all[i] == a[i];
    assert forall i | 0 <= i < |b| :: all[|a| + i] == b[i];
  }

  lemma VariantIds(s: Source, ref: string)
    ensures HasId(Variants(s), GatewayId(ref)) <==> s.ref == ref && s.thinking != Some(false)
    ensures HasId(Variants(s), NoThinkingId(ref)) <==> s.ref == ref
  {
    IdsDiffer(s.ref, ref);
    IdsDiffer(ref, s.ref);
    var v := Variants(s);
    assert v[|v| - 1].id == NoThinkingId(s.ref);
    if s.thinking != Some(false) {
      assert v[0].id == GatewayId(s.ref);
    }
  }

  lemma {:induction false} VisibleIds(visible: string -> bool, sources: seq<Source>, ref: string)
    ensures HasId(VisibleVariants(visible, sources), GatewayId(ref)) <==> Asked(visible, sources, ref, true)
    ensures HasId(VisibleVariants(visible, sources), NoThinkingId(ref)) <==> Asked(visible, sources, ref, false)
  {
    if sources != [] {
      var front, s := sources[..|sources| - 1], sources[|sources| - 1];
      VisibleIds(visible, front, ref);
      VariantIds(s, ref);
      var more := if visible(s.ref) then Variants(s) else [];
      HasIdConcat(VisibleVariants(visible, front), more, GatewayId(ref));
      HasIdConcat(VisibleVariants(visible, front), more, NoThinkingId(ref));
      AskedStep(visible, sources, ref, true);
      AskedStep(visible, sources, ref, false);
    }
  }

  lemma AskedStep(visible: string -> bool, sources: seq<Source>, ref: string, thinking: bool)
    requires sources != []
    ensures var front, s := sources[..|sources| - 1], sources[|sources| - 1];
      Asked(visible, sources, ref, thinking) <==>
        || Asked(visible, front, ref, thinking)
        || (visible(ref) && s.ref == ref && (thinking ==> s.thinking != Some(false)))
  {
    var front := sources[..|sources| - 1];
    assert forall i | 0 <= i < |front| :: front[i] == sources[i];
  }

  ghost predicate IsTierRef(tiers: seq<Tier>, ref: string) {
    exists i :: 0 <= i < |tiers| && TierRef(tiers[i]) == ref
  }

  lemma TierPairIds(tier: Tier, name: string, ref: string)
    ensures var pair := TierPair(tier, name);
      && (HasId(pair, GatewayId(ref)) <==> TierRef(tier) == ref)
      && !HasId(pair, NoThinkingId(ref))
      && HasId(pair, TierRef(tier))
  {
    var pair := TierPair(tier, name);
    IdsDiffer(TierRef(tier), ref);
    assert TierRef(tier)[0] == 'm' && GatewayId(ref)[0] == 'a' && NoThinkingId(ref)[0] == 'c';
    assert pair[0].id == TierRef(tier) && pair[1].id == GatewayId(TierRef(tier));
  }

  lemma {:induction false} TierIds(primary: string -> string, tiers: seq<Tier>, ref: string)
    ensures HasId(TierModels(primary, tiers), GatewayId(ref)) <==> IsTierRef(tiers, ref)
    ensures !HasId(TierModels(primary, tiers), NoThinkingId(ref))
    ensures IsTierRef(tiers, ref) ==> HasId(TierModels(primary, tiers), ref)
  {
    if tiers != [] {
      var front, tier := tiers[..|tiers| - 1], tiers[|tiers| - 1];
      TierIds(primary, front, ref);
      TierIdsStep(TierModels(primary, front), tier, TierName(tier, primary(tier.name)), ref);
      IsTierRefStep(tiers, ref);
    }
  }

  lemma TierIdsStep(models: seq<Model>, tier: Tier, name: string, ref: string)
    ensures var now := models + TierPair(tier, name);
      && (HasId(now, GatewayId(ref)) <==> HasId(models, GatewayId(ref)) || TierRef(tier) == ref)
      && (HasId(now, NoThinkingId(ref)) <==> HasId(models, NoThinkingId(ref)))
      && (HasId(models, ref) || TierRef(tier) == ref ==> HasId(now, ref))
  {
    var pair := TierPair(tier, name);
    TierPairIds(tier, name, ref);
    HasIdConcat(models, pair, GatewayId(ref));
    HasIdConcat(models, pair, NoThinkingId(ref));
    HasIdConcat(models, pair, ref);
  }

  lemma IsTierRefStep(tiers: seq<Tier>, ref: string)
    requires tiers != []
    ensures IsTierRef(tiers, ref) <==> IsTierRef(tiers[..|tiers| - 1], ref) || TierRef(tiers[|tiers| - 1]) == ref
  {
    var front := tiers[..|tiers| - 1];
    assert forall i | 0 <= i < |front| :: front[i] == tiers[i];
  }

  /** Aliases that can be neither of a ref's two ids: wrong first character, or too short. */
  ghost predicate Bare(models: seq<Model>) {
    forall i | 0 <= i < |models| :: BareId(models[i].id)
  }

  predicate BareId(id: string) {
    0 < |id| <= |NO_THINKING| && id[0] != GATEWAY[0]
  }

  /** The ids of the list, for any fixed aliases. */
  lemma ListedIn(inputs: Inputs, claude: seq<Model>, tiers: seq<Tier>, ref: string)
    requires Bare(claude)
    ensures HasId(CandidatesOf(inputs, claude, tiers), GatewayId(ref)) <==>
      || Asked(inputs.visible, inputs.configured, ref, true)
      || Asked(inputs.visible, inputs.cached, ref, true)
      || (inputs.tierAliases && IsTierRef(tiers, ref))
    ensures HasId(CandidatesOf(inputs, claude, tiers), NoThinkingId(ref)) <==>
      || Asked(inputs.visible, inputs.configured, ref, false)
      || Asked(inputs.visible, inputs.cached, ref, false)
  {
    VisibleIds(inputs.visible, inputs.configured, ref);
    VisibleIds(inputs.visible, inputs.cached, ref);
    TierIds(inputs.primary, tiers, ref);
    assert GatewayId(ref)[0] == GATEWAY[0] && |NoThinkingId(ref)| > |NO_THINKING|;
    CandidateIds(inputs, claude, tiers, GatewayId(ref));
    CandidateIds(inputs, claude, tiers, NoThinkingId(ref));
  }

  lemma CandidateIds(inputs: Inputs, claude: seq<Model>, tiers: seq<Tier>, id: string)
    ensures HasId(CandidatesOf(inputs, claude, tiers), id) <==>
      || HasId(VisibleVariants(inputs.visible, inputs.configured), id)
      || HasId(VisibleVariants(inputs.visible, inputs.cached), id)
      || HasId(claude, id)
      || (inputs.tierAliases && HasId(TierModels(inputs.primary, tiers), id))
  {
    var a, b := VisibleVariants(inputs.visible, inputs.configured), VisibleVariants(inputs.visible, inputs.cached);
    HasIdConcat(a, b, id);
    HasIdConcat(a + b, claude, id);
    HasIdConcat(a + b + claude, if inputs.tierAliases then TierModels(inputs.primary, tiers) else [], id);
  }

  lemma ClaudeIdsAreBare()
    ensures Bare(SUPPORTED_CLAUDE_MODELS)
  {
  }

  /** Which of a ref's two ids a client is offered: the plain one when some visible source does not
      rule thinking out, or when the ref is a tier; the other one for every visible source. A
      ref the visibility lists hide is offered under neither. */
  lemma WhatIsOffered(inputs: Inputs, ref: string)
    ensures HasId(FirstOfEachId(Candidates(inputs)), GatewayId(ref)) <==>
      || Asked(inputs.visible, inputs.configured, ref, true)
      || Asked(inputs.visible, inputs.cached, ref, true)
      || (inputs.tierAliases && IsTierRef(TIER_ORDER, ref))
    ensures HasId(FirstOfEachId(Candidates(inputs)), NoThinkingId(ref)) <==>
      || Asked(inputs.visible, inputs.configured, ref, false)
      || Asked(inputs.visible, inputs.cached, ref, false)
  {
    ClaudeIdsAreBare();
    ListedIn(inputs, SUPPORTED_CLAUDE_MODELS, TIER_ORDER, ref);
    FirstOfEachIdFacts(Candidates(inputs));
  }

  /** The fixed aliases are always offered, the tier aliases in both spellings when enabled. */
  lemma AliasesAreOffered(inputs: Inputs)
    ensures forall i | 0 <= i < |SUPPORTED_CLAUDE_MODELS| ::
      HasId(FirstOfEachId(Candidates(inputs)), SUPPORTED_CLAUDE_MODELS[i].id)
    ensures forall i | 0 <= i < |TIER_ORDER| && inputs.tierAliases ::
      && HasId(FirstOfEachId(Candidates(inputs)), TierRef(TIER_ORDER[i]))
      && HasId(FirstOfEachId(Candidates(inputs)), GatewayId(TierRef(TIER_ORDER[i])))
  {
    FirstOfEachIdFacts(Candidates(inputs));
    AliasesAreIn(inputs, SUPPORTED_CLAUDE_MODELS, TIER_ORDER);
  }

  lemma AliasesAreIn(inputs: Inputs, claude: seq<Model>, tiers: seq<Tier>)
    ensures forall i | 0 <= i < |claude| :: HasId(CandidatesOf(inputs, claude, tiers), claude[i].id)
    ensures forall i | 0 <= i < |tiers| && inputs.tierAliases ::
      && HasId(CandidatesOf(inputs, claude, tiers), TierRef(tiers[i]))
      && HasId(CandidatesOf(inputs, claude, tiers), GatewayId(TierRef(tiers[i])))
  {
    forall i | 0 <= i < |claude| ensures HasId(CandidatesOf(inputs, claude, tiers), claude[i].id) {
      CandidateIds(inputs, claude, tiers, claude[i].id);
    }
    forall i | 0 <= i < |tiers| && inputs.tierAliases
      ensures HasId(CandidatesOf(inputs, claude, tiers), TierRef(tiers[i]))
      ensures HasId(CandidatesOf(inputs, claude, tiers), GatewayId(TierRef(tiers[i])))
    {
      TierIds(inputs.primary, tiers, TierRef(tiers[i]));
      CandidateIds(inputs, claude, tiers, TierRef(tiers[i]));
      CandidateIds(inputs, claude, tiers, GatewayId(TierRef(tiers[i])));
    }
  }

  // ----- under which name

  lemma {:induction false} VariantNames(visible: string -> bool, sources: seq<Source>, i: nat, ref: string)
    requires i < |VisibleVariants(visible, sources)|
    ensures VisibleVariants(visible, sources)[i].id == GatewayId(ref) ==>
      VisibleVariants(visible, sources)[i] == Discovered(GatewayId(ref), ref)
    ensures VisibleVariants(visible, sources)[i].id == NoThinkingId(ref) ==>
      VisibleVariants(visible, sources)[i] == Discovered(NoThinkingId(ref), ref + " (no thinking)")
  {
    var front, s := sources[..|sources| - 1], sources[|sources| - 1];
    if i < |VisibleVariants(visible, front)| {
      VariantNames(visible, front, i, ref);
    } else {
      IdsDiffer(s.ref, ref);
      IdsDiffer(ref, s.ref);
    }
  }

  lemma {:induction false} FirstExists(models: seq<Model>, id: string)
    requires HasId(models, id)
    ensures exists i :: FirstAt(models, i) && models[i].id == id
  {
    HasIdStep(models);
    FirstAtStep(models);
    var front := models[..|models| - 1];
    if HasId(front, id) {
      FirstExists(front, id);
      var i :| FirstAt(front, i) && front[i].id == id;
      assert FirstAt(models, i);
    } else {
      assert FirstAt(models, |front|);
    }
  }

  /** A model that comes from a provider is offered under its own ref, even when a tier alias
      asks for the same id later. */
  lemma ProviderNameWins(
    inputs: Inputs, claude: seq<Model>, tiers: seq<Tier>, id: string, model: Model)
    requires var provided :=
        VisibleVariants(inputs.visible, inputs.configured) + VisibleVariants(inputs.visible, inputs.cached);
      HasId(provided, id) && forall i | 0 <= i < |provided| && provided[i].id == id :: provided[i] == model
    ensures model in FirstOfEachId(CandidatesOf(inputs, claude, tiers))
  {
    var provided := VisibleVariants(inputs.visible, inputs.configured) + VisibleVariants(inputs.visible, inputs.cached);
    var all := CandidatesOf(inputs, claude, tiers);
    FirstExists(provided, id);
    var i :| FirstAt(provided, i) && provided[i].id == id;
    assert provided <= all;
    assert FirstAt(all, i);
    FirstOfEachIdFacts(all);
  }

  /** A visible model is listed once, as itself. */
  lemma VisibleModelIsListed(inputs: Inputs, ref: string)
    ensures Asked(inputs.visible, inputs.configured, ref, true) || Asked(inputs.visible, inputs.cached, ref, true)
      ==> Discovered(GatewayId(ref), ref) in FirstOfEachId(Candidates(inputs))
    ensures Asked(inputs.visible, inputs.configured, ref, false) || Asked(inputs.visible, inputs.cached, ref, false)
      ==> Discovered(NoThinkingId(ref), ref + " (no thinking)") in FirstOfEachId(Candidates(inputs))
  {
    var a, b := VisibleVariants(inputs.visible, inputs.configured), VisibleVariants(inputs.visible, inputs.cached);
    VisibleIds(inputs.visible, inputs.configured, ref);
    VisibleIds(inputs.visible, inputs.cached, ref);
    HasIdConcat(a, b, GatewayId(ref));
    HasIdConcat(a, b, NoThinkingId(ref));
    ProvidedNames(inputs.visible, inputs.configured, inputs.cached, ref);
    if HasId(a + b, GatewayId(ref)) {
      ProviderNameWins(inputs, SUPPORTED_CLAUDE_MODELS, TIER_ORDER, GatewayId(ref), Discovered(GatewayId(ref), ref));
    }
    if HasId(a + b, NoThinkingId(ref)) {
      ProviderNameWins(inputs, SUPPORTED_CLAUDE_MODELS, TIER_ORDER, NoThinkingId(ref),
                       Discovered(NoThinkingId(ref), ref + " (no thinking)"));
    }
  }

  lemma ProvidedNames(
    visible: string -> bool, configured: seq<Source>, cached: seq<Source>, ref: string)
    ensures var provided := VisibleVariants(visible, configured) + VisibleVariants(visible, cached);
      forall i | 0 <= i < |provided| ::
        && (provided[i].id == GatewayId(ref) ==> provided[i] == Discovered(GatewayId(ref), ref))
        && (provided[i].id == NoThinkingId(ref) ==>
              provided[i] == Discovered(NoThinkingId(ref), ref + " (no thinking)"))
  {
    var a: seq<Model> := VisibleVariants(visible, configured);
    var provided: seq<Model> := a + VisibleVariants(visible, cached);
    forall i | 0 <= i < |provided|
      ensures provided[i].id == GatewayId(ref) ==> provided[i] == Discovered(GatewayId(ref), ref)
      ensures provided[i].id == NoThinkingId(ref) ==>
        provided[i] == Discovered(NoThinkingId(ref), ref + " (no thinking)")
    {
      if i < |a| {
        VariantNames(visible, configured, i, ref);
      } else {
        VariantNames(visible, cached, i - |a|, ref);
      }
    }
  }

  // ----- what a listed model says

  /** A visible source under one of its two ids. */
  ghost predicate SaysSource(inputs: Inputs, s: Source, m: Model) {
    && (s in inputs.configured || s in inputs.cached) && inputs.visible(s.ref)
    && (|| (s.thinking != Some(false) && m == Model("anthropic/" + s.ref, s.ref, DISCOVERED_AT))
        || m == Model("claude-3-freecc-no-thinking/" + s.ref, s.ref + " (no thinking)", DISCOVERED_AT))
  }

  /** A tier under one of its two spellings, named by its caption and the model its route leads to. */
  ghost predicate SaysTier(inputs: Inputs, tier: Tier, m: Model) {
    && inputs.tierAliases
    && (m.id == "mcc/" + tier.name || m.id == "anthropic/mcc/" + tier.name)
    && (inputs.primary(tier.name) == "" ==> m.displayName == tier.caption)
    && (inputs.primary(tier.name) != "" ==>
          m.displayName == tier.caption + " (" + inputs.primary(tier.name) + ")")
    && m.createdAt == DISCOVERED_AT
  }

  ghost predicate Explained(inputs: Inputs, claude: seq<Model>, tiers: seq<Tier>, m: Model) {
    || (exists s :: SaysSource(inputs, s, m))
    || m in claude
    || (exists tier :: tier in tiers && SaysTier(inputs, tier, m))
  }

  lemma {:induction false} VariantsSay(inputs: Inputs, sources: seq<Source>, m: Model)
    requires forall s | s in sources :: s in inputs.configured || s in inputs.cached
    requires m in VisibleVariants(inputs.visible, sources)
    ensures exists s :: SaysSource(inputs, s, m)
  {
    var front, s := sources[..|sources| - 1], sources[|sources| - 1];
    if m in VisibleVariants(inputs.visible, front) {
      VariantsSay(inputs, front, m);
    } else {
      assert s in sources;
      VariantSays(inputs, s, m);
    }
  }

  lemma VariantSays(inputs: Inputs, s: Source, m: Model)
    requires (s in inputs.configured || s in inputs.cached) && inputs.visible(s.ref) && m in Variants(s)
    ensures SaysSource(inputs, s, m)
  {
  }

  lemma {:induction false} TiersSay(inputs: Inputs, tiers: seq<Tier>, m: Model)
    requires inputs.tierAliases && m in TierModels(inputs.primary, tiers)
    ensures exists tier :: tier in tiers && SaysTier(inputs, tier, m)
  {
    var front, tier := tiers[..|tiers| - 1], tiers[|tiers| - 1];
    if m in TierModels(inputs.primary, front) {
      TiersSay(inputs, front, m);
      var other :| other in front && SaysTier(inputs, other, m);
      assert other in tiers;
    } else {
      PairSays(inputs, tier, m);
      assert tier in tiers;
    }
  }

  lemma PairSays(inputs: Inputs, tier: Tier, m: Model)
    requires inputs.tierAliases && m in TierPair(tier, TierName(tier, inputs.primary(tier.name)))
    ensures SaysTier(inputs, tier, m)
  {
    assert GATEWAY + "/" + ("mcc/" + tier.name) == "anthropic/mcc/" + tier.name;
  }

  lemma CandidatesSay(inputs: Inputs, claude: seq<Model>, tiers: seq<Tier>, m: Model)
    requires m in CandidatesOf(inputs, claude, tiers)
    ensures Explained(inputs, claude, tiers, m)
  {
    if m in VisibleVariants(inputs.visible, inputs.configured) {
      VariantsSay(inputs, inputs.configured, m);
    } else if m in VisibleVariants(inputs.visible, inputs.cached) {
      VariantsSay(inputs, inputs.cached, m);
    } else if m !in claude {
      TiersSay(inputs, tiers, m);
    }
  }

  /** Every listed model is a visible source under one of its ids and names, a fixed alias, or, when
      they are enabled, a tier under one of its spellings and named after its route. */
  lemma ListedModelsAreNamed(inputs: Inputs, m: Model)
    requires m in FirstOfEachId(Candidates(inputs))
    ensures Explained(inputs, SUPPORTED_CLAUDE_MODELS, TIER_ORDER, m)
  {
    FirstOfEachIdFacts(Candidates(inputs));
    var i :| FirstAt(Candidates(inputs), i) && Candidates(inputs)[i] == m;
    CandidatesSay(inputs, SUPPORTED_CLAUDE_MODELS, TIER_ORDER, m);
  }

  lemma {:induction false} FirstsArePrefix(a: seq<Model>, b: seq<Model>)
    ensures FirstOfEachId(a) <= FirstOfEachId(a + b)
  {
    if b == [] {
      assert a + b == a;
    } else {
      assert (a + b)[..|a + b| - 1] == a + b[..|b| - 1];
      FirstsArePrefix(a, b[..|b| - 1]);
    }
  }

  /** The list begins with what the configured sources ask for, goes on with the cached ones, then the
      fixed aliases, then the tiers. */
  lemma ListIsInOrder(inputs: Inputs)
    ensures var configured, cached := VisibleVariants(inputs.visible, inputs.configured),
                                      VisibleVariants(inputs.visible, inputs.cached);
      && FirstOfEachId(configured) <= FirstOfEachId(configured + cached)
      && FirstOfEachId(configured + cached) <= FirstOfEachId(configured + cached + SUPPORTED_CLAUDE_MODELS)
      && FirstOfEachId(configured + cached + SUPPORTED_CLAUDE_MODELS) <= FirstOfEachId(Candidates(inputs))
  {
    InOrderWith(inputs, SUPPORTED_CLAUDE_MODELS, TIER_ORDER);
  }

  lemma InOrderWith(inputs: Inputs, claude: seq<Model>, tiers: seq<Tier>)
    ensures var configured, cached := VisibleVariants(inputs.visible, inputs.configured),
                                      VisibleVariants(inputs.visible, inputs.cached);
      && FirstOfEachId(configured) <= FirstOfEachId(configured + cached)
      && FirstOfEachId(configured + cached) <= FirstOfEachId(configured + cached + claude)
      && FirstOfEachId(configured + cached + claude) <= FirstOfEachId(CandidatesOf(inputs, claude, tiers))
  {
    var configured, cached := VisibleVariants(inputs.visible, inputs.configured),
                              VisibleVariants(inputs.visible, inputs.cached);
    FirstsArePrefix(configured, cached);
    FirstsArePrefix(configured + cached, claude);
    FirstsArePrefix(configured + cached + claude,
                    if inputs.tierAliases then TierModels(inputs.primary, tiers) else []);
  }
}
