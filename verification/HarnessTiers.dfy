/** Tier overrides per coding agent: the edit, the stored document and its lock
    (admin_harness_routes.py, harness_tiers.py). */
module HarnessTiers {
  import opened Options
  import opened Text
  import opened JsonValues
  import opened LockedEdits

  datatype Override = Override(model: Option<string>, fallbacks: seq<string>, paused: seq<string>)

  type Tiers = map<string, map<string, Override>>

  /** The stored file. One that is missing, blank or no JSON says nothing. */
  datatype File = Unusable | Parsed(document: Json)

  const TIER_ORDER := ["best", "good", "medium", "cheap", "vision"]
  const TIER_NAMES := {"best", "good", "medium", "cheap", "vision"}
  const TIER_NAMESPACE := "mcc"

  /** The agents there are, and how a key of the document or of a request names an agent or a tier:
      `strip().lower()`, which leaves every proper name alone. */
  datatype Names = Names(agents: seq<string>, name: string -> string) {
    ghost predicate Valid() {
      && Distinct(agents)
      && (forall i | 0 <= i < |agents| :: name(agents[i]) == agents[i])
      && (forall t | t in TIER_NAMES :: name(t) == t)
    }
  }

  function LowerChar(c: char): char {
    if 'A' <= c <= 'Z' then c - 'A' + 'a' else c
  }

  function Lower(s: string): string {
    seq(|s|, i requires 0 <= i < |s| => LowerChar(s[i]))
  }

  // ----- refs

  /** `is_valid_tier_override_ref`: provider/model, both halves said, not itself a tier. */
  predicate ValidRef(ref: string) {
    match Partition(ref)
    case None => false
    case Some((provider, model)) =>
      Strip(provider) != "" && Strip(model) != "" && Lower(Strip(provider)) != TIER_NAMESPACE
  }

  ghost predicate SpellsMcc(s: string) {
    |s| == 3 && s[0] in "mM" && s[1] in "cC" && s[2] in "cC"
  }

  lemma LowerOfMcc(s: string)
    ensures Lower(s) == "mcc" <==> SpellsMcc(s)
  {
    var low := "mcc";
    if Lower(s) == low {
      assert Lower(s)[0] == low[0] && Lower(s)[1] == low[1] && Lower(s)[2] == low[2];
    }
    if SpellsMcc(s) {
      assert Lower(s) == low;
    }
  }

  /** The first slash parts the ref into these. */
  ghost predicate Halves(ref: string, provider: string, model: string) {
    '/' !in provider && ref == provider + "/" + model
  }

  /** The refs a tier may hold: a first slash with something on both sides of it, the provider being
      no spelling of the tier namespace. */
  lemma ValidRefMeaning(ref: string)
    ensures ValidRef(ref) <==>
      exists provider, model :: Halves(ref, provider, model)
        && !All(IsSpace, provider) && !All(IsSpace, model) && !SpellsMcc(Strip(provider))
  {
    PartitionJoins(ref);
    forall provider, model | Halves(ref, provider, model) ensures Partition(ref) == Some((provider, model)) {
      PartitionAt(provider, model);
    }
    match Partition(ref)
    case None =>
    case Some((provider, model)) =>
      BeforeFirstSlash(ref);
      TrimsToNothing(IsSpace, provider);
      TrimsToNothing(IsSpace, model);
      LowerOfMcc(Strip(provider));
      assert Halves(ref, provider, model);
  }

  lemma BeforeFirstSlash(ref: string)
    ensures Partition(ref).Some? ==> '/' !in Partition(ref).value.0
  {
    SlashFreeSpan(ref);
  }

  lemma {:induction false} SlashFreeSpan(s: string)
    ensures '/' !in s[..Span(Slash, s)]
  {
    if s != "" && !Slash(s[0]) {
      SlashFreeSpan(s[1..]);
      assert s[..Span(Slash, s)] == [s[0]] + s[1..][..Span(Slash, s[1..])];
    }
  }

  /** A ref in the form in which it is stored and read back. */
  predicate StoredRef(ref: string) {
    ref != "" && Strip(ref) == ref && ValidRef(ref)
  }

  ghost predicate StoredRefs(refs: seq<string>) {
    Distinct(refs) && forall i | 0 <= i < |refs| :: StoredRef(refs[i])
  }

  ghost predicate Storable(o: Override) {
    && (o.model.Some? ==> StoredRef(o.model.value))
    && StoredRefs(o.fallbacks) && StoredRefs(o.paused)
  }

  lemma StripTwice(s: string)
    ensures Strip(Strip(s)) == Strip(s)
  {
    TrimTight(IsSpace, s);
    TrimOfTight(IsSpace, Strip(s));
  }

  /** `_clean_ref` of a string: what a stored ref is read back as. */
  function CleanText(value: string): Option<string> {
    var ref := Strip(value);
    if ref == "" || !ValidRef(ref) then None else Some(ref)
  }

  /** `_clean_ref`: anything but a usable string is ignored. */
  function CleanRef(value: Json): Option<string> {
    if value.Str? then CleanText(value.text) else None
  }

  function CleanEach(values: seq<Json>): seq<string> {
    if values == [] then []
    else
      var refs := CleanEach(values[..|values| - 1]);
      var ref := CleanRef(values[|values| - 1]);
      if ref.Some? && ref.value !in refs then refs + [ref.value] else refs
  }

  function Strs(values: seq<string>): seq<Json> {
    seq(|values|, i requires 0 <= i < |values| => Str(values[i]))
  }

  /** `_clean_refs`: a list, or a string of comma-separated parts. A blank part is ignored either way. */
  function CleanRefs(value: Option<Json>): seq<string> {
    match value
    case Some(Str(text)) => CleanEach(Strs(Split(text, ',')))
    case Some(List(items)) => CleanEach(items)
    case _ => []
  }

  lemma {:induction false} CleanEachStored(values: seq<Json>)
    ensures StoredRefs(CleanEach(values))
  {
    if values != [] {
      CleanEachStored(values[..|values| - 1]);
      var last := values[|values| - 1];
      if last.Str? {
        StripTwice(last.text);
      }
    }
  }

  lemma CleanTextOfStored(ref: string)
    requires StoredRef(ref)
    ensures CleanText(ref) == Some(ref)
  {
  }

  lemma {:induction false} CleanEachOfStored(values: seq<string>)
    requires StoredRefs(values)
    ensures CleanEach(Strs(values)) == values
  {
    if values != [] {
      var front, last := values[..|values| - 1], values[|values| - 1];
      StoredFront(values);
      CleanEachOfStored(front);
      CleanTextOfStored(last);
      var strs := Strs(values);
      assert strs[..|strs| - 1] == Strs(front) && strs[|strs| - 1] == Str(last);
      CleanEachStep(strs, front, last);
    }
  }

  lemma CleanEachStep(values: seq<Json>, refs: seq<string>, ref: string)
    requires values != [] && CleanEach(values[..|values| - 1]) == refs
    requires CleanRef(values[|values| - 1]) == Some(ref) && ref !in refs
    ensures CleanEach(values) == refs + [ref]
  {
  }

  lemma StoredFront(values: seq<string>)
    requires StoredRefs(values) && values != []
    ensures StoredRefs(values[..|values| - 1]) && StoredRef(values[|values| - 1])
    ensures values[|values| - 1] !in values[..|values| - 1]
    ensures values == values[..|values| - 1] + [values[|values| - 1]]
  {
  }

  // ----- one entry

  /** `HarnessTierOverride.as_document`: what was never said is absent. */
  function AsEntry(o: Override): seq<(string, Json)> {
    (if o.model.Some? then [("model", Str(o.model.value))] else [])
    + (if o.fallbacks != [] then [("fallbacks", List(Strs(o.fallbacks)))] else [])
    + (if o.paused != [] then [("paused", List(Strs(o.paused)))] else [])
  }

  /** `_parse_entry` */
  function FromEntry(entries: seq<(string, Json)>): Override {
    var model := Get(entries, "model");
    Override(
      if model.Some? then CleanRef(model.value) else None,
      CleanRefs(Get(entries, "fallbacks")),
      CleanRefs(Get(entries, "paused")))
  }

  lemma {:induction false} GetAppend(a: seq<(string, Json)>, b: seq<(string, Json)>, key: string)
    ensures Get(a + b, key) == if Get(b, key).Some? then Get(b, key) else Get(a, key)
  {
    if b == [] {
      assert a + b == a;
    } else {
      assert (a + b)[..|a + b| - 1] == a + b[..|b| - 1];
      GetAppend(a, b[..|b| - 1], key);
    }
  }

  /** A part of an entry is there or not. */
  lemma GetPart(there: bool, own: string, value: Json, key: string)
    ensures Get(if there then [(own, value)] else [], key) == if there && own == key then Some(value) else None
  {
    var part := if there then [(own, value)] else [];
    assert there ==> part[..0] == [];
    assert Get([], key) == None;
  }

  lemma PartsOfEntry(o: Override, key: string)
    ensures var e := AsEntry(o);
      && (key == "model" ==> Get(e, key) == if o.model.Some? then Some(Str(o.model.value)) else None)
      && (key == "fallbacks" ==> Get(e, key) == if o.fallbacks != [] then Some(List(Strs(o.fallbacks))) else None)
      && (key == "paused" ==> Get(e, key) == if o.paused != [] then Some(List(Strs(o.paused))) else None)
  {
    var model := if o.model.Some? then [("model", Str(o.model.value))] else [];
    var fallbacks := if o.fallbacks != [] then [("fallbacks", List(Strs(o.fallbacks)))] else [];
    var paused := if o.paused != [] then [("paused", List(Strs(o.paused)))] else [];
    GetAppend(model + fallbacks, paused, key);
    GetAppend(model, fallbacks, key);
    GetPart(o.model.Some?, "model", Str(if o.model.Some? then o.model.value else ""), key);
    GetPart(o.fallbacks != [], "fallbacks", List(Strs(o.fallbacks)), key);
    GetPart(o.paused != [], "paused", List(Strs(o.paused)), key);
  }

  lemma EntryRoundTrip(o: Override)
    requires Storable(o)
    ensures FromEntry(AsEntry(o)) == o
  {
    PartsOfEntry(o, "model");
    PartsOfEntry(o, "fallbacks");
    PartsOfEntry(o, "paused");
    CleanEachOfStored(o.fallbacks);
    CleanEachOfStored(o.paused);
  }

  lemma EntryIsStorable(entries: seq<(string, Json)>)
    ensures Storable(FromEntry(entries))
  {
    var model := Get(entries, "model");
    if model.Some? && model.value.Str? {
      StripTwice(model.value.text);
    }
    CleanRefsStored(Get(entries, "fallbacks"));
    CleanRefsStored(Get(entries, "paused"));
  }

  lemma CleanRefsStored(value: Option<Json>)
    ensures StoredRefs(CleanRefs(value))
  {
    match value
    case Some(Str(text)) => CleanEachStored(Strs(Split(text, ',')));
    case Some(List(items)) => CleanEachStored(items);
    case _ =>
  }

  // ----- the document

  function TierRows(order: seq<string>, own: map<string, Override>): seq<(string, Json)> {
    if order == [] then []
    else
      var last := order[|order| - 1];
      TierRows(order[..|order| - 1], own) + if last in own then [(last, Dict(AsEntry(own[last])))] else []
  }

  function AgentRows(agents: seq<string>, order: seq<string>, tiers: Tiers): seq<(string, Json)> {
    if agents == [] then []
    else
      var last := agents[|agents| - 1];
      AgentRows(agents[..|agents| - 1], order, tiers)
      + if last in tiers then [(last, Dict(TierRows(order, tiers[last])))] else []
  }

  /** `HarnessTiers.as_document` */
  function AsDocument(names: Names, tiers: Tiers): Json {
    Dict([("harnesses", Dict(AgentRows(names.agents, TIER_ORDER, tiers)))])
  }

  /** `_parse_tiers`: unknown tiers and entries that are no objects are ignored; of two spellings of
      one tier the last counts. */
  function ParseTiers(names: Names, entries: seq<(string, Json)>): map<string, Override> {
    if entries == [] then map[]
    else
      var before := ParseTiers(names, entries[..|entries| - 1]);
      var (raw, value) := entries[|entries| - 1];
      if names.name(raw) in TIER_NAMES && value.Dict? then before[names.name(raw) := FromEntry(value.entries)]
      else before
  }

  function ParseAgents(names: Names, entries: seq<(string, Json)>): Tiers {
    if entries == [] then map[]
    else
      var before := ParseAgents(names, entries[..|entries| - 1]);
      var (raw, value) := entries[|entries| - 1];
      if names.name(raw) in names.agents && value.Dict? && ParseTiers(names, Merged(value.entries)) != map[]
      then before[names.name(raw) := ParseTiers(names, Merged(value.entries))] else before
  }

  /** `HarnessTiers.from_document`: what cannot be used is ignored. */
  function FromDocument(names: Names, document: Json): Tiers {
    if !document.Dict? then map[]
    else
      match Get(document.entries, "harnesses")
      case Some(Dict(sections)) => ParseAgents(names, Merged(sections))
      case _ => map[]
  }

  /** `load_harness_tiers` of a file that can be read */
  function Load(names: Names, file: File): Tiers {
    match file case Unusable => map[] case Parsed(document) => FromDocument(names, document)
  }

  ghost predicate StorableOwn(own: map<string, Override>) {
    forall t | t in own :: t in TIER_NAMES && Storable(own[t])
  }

  ghost predicate StorableTiers(names: Names, tiers: Tiers) {
    forall h | h in tiers :: h in names.agents && tiers[h] != map[] && StorableOwn(tiers[h])
  }

  lemma {:induction false} ParsedOwnIsStorable(names: Names, entries: seq<(string, Json)>)
    ensures StorableOwn(ParseTiers(names, entries))
  {
    if entries != [] {
      ParsedOwnIsStorable(names, entries[..|entries| - 1]);
      var (_, value) := entries[|entries| - 1];
      if value.Dict? {
        EntryIsStorable(value.entries);
      }
    }
  }

  lemma {:induction false} ParsedIsStorable(names: Names, entries: seq<(string, Json)>)
    ensures StorableTiers(names, ParseAgents(names, entries))
  {
    if entries != [] {
      ParsedIsStorable(names, entries[..|entries| - 1]);
      var (_, value) := entries[|entries| - 1];
      if value.Dict? {
        ParsedOwnIsStorable(names, Merged(value.entries));
      }
    }
  }

  /** Whatever the file holds, what is loaded from it could have been saved. */
  lemma LoadedIsStorable(names: Names, file: File)
    ensures StorableTiers(names, Load(names, file))
  {
    if file.Parsed? && file.document.Dict? {
      var sections := Get(file.document.entries, "harnesses");
      if sections.Some? && sections.value.Dict? {
        ParsedIsStorable(names, Merged(sections.value.entries));
      }
    }
  }

  // ----- saved and loaded

  function Restrict<V>(m: map<string, V>, keys: seq<string>): map<string, V> {
    map k | k in m && k in keys :: m[k]
  }

  lemma RestrictSnoc<V>(m: map<string, V>, keys: seq<string>, key: string)
    ensures Restrict(m, keys + [key]) == if key in m then Restrict(m, keys)[key := m[key]] else Restrict(m, keys)
  {
  }

  lemma {:induction false} TierRowsReadBack(names: Names, order: seq<string>, own: map<string, Override>)
    requires names.Valid() && StorableOwn(own)
    ensures ParseTiers(names, TierRows(order, own)) == Restrict(own, order)
  {
    if order != [] {
      var front, last := order[..|order| - 1], order[|order| - 1];
      assert order == front + [last];
      TierRowsReadBack(names, front, own);
      RestrictSnoc(own, front, last);
      if last in own {
        EntryRoundTrip(own[last]);
        ParseTiersSnoc(names, TierRows(front, own), last, AsEntry(own[last]));
      } else {
        assert TierRows(front, own) + [] == TierRows(front, own);
      }
    }
  }

  lemma ParseTiersSnoc(
    names: Names, rows: seq<(string, Json)>, tier: string, entry: seq<(string, Json)>)
    requires names.name(tier) == tier && tier in TIER_NAMES
    ensures ParseTiers(names, rows + [(tier, Dict(entry))]) == ParseTiers(names, rows)[tier := FromEntry(entry)]
  {
    var all := rows + [(tier, Dict(entry))];
    assert all[..|all| - 1] == rows;
  }

  lemma TiersRoundTrip(names: Names, order: seq<string>, own: map<string, Override>)
    requires names.Valid() && StorableOwn(own) && CoversTiers(order)
    ensures ParseTiers(names, Merged(TierRows(order, own))) == own
  {
    TierRowsDistinct(order, own);
    MergedDistinct(TierRows(order, own));
    TierRowsReadBack(names, order, own);
    assert Restrict(own, order) == own;
  }

  /** The order lists every tier once. */
  ghost predicate CoversTiers(order: seq<string>) {
    Distinct(order) && forall t | t in TIER_NAMES :: t in order
  }

  lemma {:induction false} TierRowsDistinct(order: seq<string>, own: map<string, Override>)
    requires Distinct(order)
    ensures DistinctNames(TierRows(order, own))
    ensures forall i | 0 <= i < |TierRows(order, own)| :: TierRows(order, own)[i].0 in order
  {
    if order != [] {
      var front, last := order[..|order| - 1], order[|order| - 1];
      TierRowsDistinct(front, own);
      assert order == front + [last] && last !in front;
    }
  }

  lemma {:induction false} AgentRowsDistinct(agents: seq<string>, order: seq<string>, tiers: Tiers)
    requires Distinct(agents)
    ensures DistinctNames(AgentRows(agents, order, tiers))
    ensures forall i | 0 <= i < |AgentRows(agents, order, tiers)| :: AgentRows(agents, order, tiers)[i].0 in agents
  {
    if agents != [] {
      var front, last := agents[..|agents| - 1], agents[|agents| - 1];
      AgentRowsDistinct(front, order, tiers);
      assert agents == front + [last] && last !in front;
    }
  }

  lemma AllTiersAreListed()
    ensures CoversTiers(TIER_ORDER)
  {
    var order := TIER_ORDER;
    assert |order[0]| == 4 && |order[1]| == 4 && |order[2]| == 6 && |order[3]| == 5 && |order[4]| == 6;
    assert order[0][0] == 'b' && order[1][0] == 'g' && order[2][0] == 'm' && order[4][0] == 'v';
    assert order[0] in order && order[1] in order && order[2] in order && order[3] in order && order[4] in order;
  }

  lemma {:induction false} AgentRowsReadBack(names: Names, agents: seq<string>, order: seq<string>, tiers: Tiers)
    requires names.Valid() && StorableTiers(names, tiers) && CoversTiers(order)
    ensures ParseAgents(names, AgentRows(agents, order, tiers)) == Restrict(tiers, agents)
  {
    if agents != [] {
      var front, last := agents[..|agents| - 1], agents[|agents| - 1];
      assert agents == front + [last];
      AgentRowsReadBack(names, front, order, tiers);
      RestrictSnoc(tiers, front, last);
      if last in tiers {
        OneMoreAgent(names, AgentRows(front, order, tiers), order, last, tiers[last]);
      } else {
        assert AgentRows(front, order, tiers) + [] == AgentRows(front, order, tiers);
      }
    }
  }

  lemma OneMoreAgent(
    names: Names, rows: seq<(string, Json)>, order: seq<string>, agent: string, own: map<string, Override>)
    requires names.Valid() && agent in names.agents && own != map[] && StorableOwn(own)
    requires CoversTiers(order)
    ensures ParseAgents(names, rows + [(agent, Dict(TierRows(order, own)))]) == ParseAgents(names, rows)[agent := own]
  {
    TiersRoundTrip(names, order, own);
    ParseAgentsSnoc(names, rows, agent, TierRows(order, own));
  }

  lemma ParseAgentsSnoc(
    names: Names, rows: seq<(string, Json)>, agent: string, entries: seq<(string, Json)>)
    requires names.name(agent) == agent && agent in names.agents && ParseTiers(names, Merged(entries)) != map[]
    ensures ParseAgents(names, rows + [(agent, Dict(entries))])
      == ParseAgents(names, rows)[agent := ParseTiers(names, Merged(entries))]
  {
    var all := rows + [(agent, Dict(entries))];
    assert all[..|all| - 1] == rows;
  }

  /** Saving and loading gives the same table back. */
  lemma DocumentRoundTrip(names: Names, tiers: Tiers)
    requires names.Valid() && StorableTiers(names, tiers)
    ensures Load(names, Parsed(AsDocument(names, tiers))) == tiers
  {
    var order := TIER_ORDER;
    AllTiersAreListed();
    AllRowsReadBack(names, order, tiers);
    LoadOfRows(names, AgentRows(names.agents, order, tiers));
  }

  lemma AllRowsReadBack(names: Names, order: seq<string>, tiers: Tiers)
    requires names.Valid() && StorableTiers(names, tiers) && CoversTiers(order)
    ensures ParseAgents(names, Merged(AgentRows(names.agents, order, tiers))) == tiers
  {
    AgentRowsReadBack(names, names.agents, order, tiers);
    AgentRowsDistinct(names.agents, order, tiers);
    MergedDistinct(AgentRows(names.agents, order, tiers));
    RestrictToAll(tiers, names.agents);
  }

  lemma RestrictToAll(tiers: Tiers, agents: seq<string>)
    requires forall h | h in tiers :: h in agents
    ensures Restrict(tiers, agents) == tiers
  {
  }

  lemma LoadOfRows(names: Names, rows: seq<(string, Json)>)
    ensures Load(names, Parsed(Dict([("harnesses", Dict(rows))]))) == ParseAgents(names, Merged(rows))
  {
    GetPart(true, "harnesses", Dict(rows), "harnesses");
  }

  // ----- what is read from a file

  /** A string is read as the ref in it, blanks aside, if that is one a tier may hold. */
  lemma RefIsRead(before: string, ref: string, after: string)
    requires All(IsSpace, before) && All(IsSpace, after) && Tight(IsSpace, ref) && ref != ""
    ensures CleanRef(Str(before + ref + after)) == if ValidRef(ref) then Some(ref) else None
  {
    TrimPadding(IsSpace, before, ref, after);
    TrimOfTight(IsSpace, ref);
  }

  lemma OnlyRefsAreRead(value: Json)
    ensures !value.Str? ==> CleanRef(value) == None
    ensures value.Str? && All(IsSpace, value.text) ==> CleanRef(value) == None
  {
    if value.Str? {
      TrimsToNothing(IsSpace, value.text);
    }
  }

  ghost predicate ReadsAs(values: seq<Json>, ref: string) {
    exists i :: 0 <= i < |values| && CleanRef(values[i]) == Some(ref)
  }

  /** A list is read as the refs in it, each once, in the order in which they first come. */
  lemma {:induction false} RefsAreRead(values: seq<Json>)
    ensures Distinct(CleanEach(values))
    ensures forall ref :: ref in CleanEach(values) <==> ReadsAs(values, ref)
    ensures forall n | 0 <= n <= |values| :: CleanEach(values[..n]) <= CleanEach(values)
  {
    if values != [] {
      var front, last := values[..|values| - 1], values[|values| - 1];
      RefsAreRead(front);
      forall ref ensures ReadsAs(values, ref) <==> ReadsAs(front, ref) || CleanRef(last) == Some(ref) {
        ReadsAsStep(values, ref);
      }
      forall n | 0 <= n <= |values| ensures CleanEach(values[..n]) <= CleanEach(values) {
        if n < |values| {
          assert values[..n] == front[..n];
        } else {
          assert values[..n] == values;
        }
      }
    }
  }

  lemma ReadsAsStep(values: seq<Json>, ref: string)
    requires values != []
    ensures ReadsAs(values, ref) <==>
      ReadsAs(values[..|values| - 1], ref) || CleanRef(values[|values| - 1]) == Some(ref)
  {
    var front := values[..|values| - 1];
    if i :| 0 <= i < |values| && CleanRef(values[i]) == Some(ref) {
      assert i < |front| ==> front[i] == values[i];
    }
    if i :| 0 <= i < |front| && CleanRef(front[i]) == Some(ref) {
      assert values[i] == front[i];
    }
  }

  /** The entry can be used, and is of this tier. */
  predicate TierRow(names: Names, entry: (string, Json), tier: string) {
    names.name(entry.0) == tier && tier in TIER_NAMES && entry.1.Dict?
  }

  /** The entry can be used, and is of this agent: it says something of some tier. */
  predicate AgentRow(names: Names, entry: (string, Json), agent: string) {
    && names.name(entry.0) == agent && agent in names.agents && entry.1.Dict?
    && ParseTiers(names, Merged(entry.1.entries)) != map[]
  }

  /** The last entry of this kind is at `j`. */
  ghost predicate LastOf(of: ((string, Json)) -> bool, entries: seq<(string, Json)>, j: int) {
    0 <= j < |entries| && of(entries[j]) && forall m | j < m < |entries| :: !of(entries[m])
  }

  lemma LastOfStep(of: ((string, Json)) -> bool, entries: seq<(string, Json)>, j: int)
    requires entries != []
    ensures var front, n := entries[..|entries| - 1], |entries| - 1;
      LastOf(of, entries, j) <==> if of(entries[n]) then j == n else LastOf(of, front, j)
  {
    var front := entries[..|entries| - 1];
    assert forall m | 0 <= m < |front| :: front[m] == entries[m];
  }

  ghost predicate AnyOf(of: ((string, Json)) -> bool, entries: seq<(string, Json)>) {
    exists j :: LastOf(of, entries, j)
  }

  lemma SomeStep(of: ((string, Json)) -> bool, entries: seq<(string, Json)>)
    requires entries != []
    ensures AnyOf(of, entries) <==> of(entries[|entries| - 1]) || AnyOf(of, entries[..|entries| - 1])
  {
    var front := entries[..|entries| - 1];
    LastOfStep(of, entries, |front|);
    if j :| LastOf(of, entries, j) {
      LastOfStep(of, entries, j);
    }
    if j :| LastOf(of, front, j) {
      LastOfStep(of, entries, j);
    }
  }

  ghost function IsTierRow(names: Names, tier: string): ((string, Json)) -> bool {
    entry => TierRow(names, entry, tier)
  }

  ghost function IsAgentRow(names: Names, agent: string): ((string, Json)) -> bool {
    entry => AgentRow(names, entry, agent)
  }

  /** A tier is read from the last entry of it that can be used, and not at all if there is none. */
  lemma {:induction false} TiersAreRead(names: Names, entries: seq<(string, Json)>, tier: string)
    ensures tier in ParseTiers(names, entries) <==> AnyOf(IsTierRow(names, tier), entries)
    ensures forall j | LastOf(IsTierRow(names, tier), entries, j) ::
      tier in ParseTiers(names, entries) && ParseTiers(names, entries)[tier] == FromEntry(entries[j].1.entries)
  {
    if entries != [] {
      var front := entries[..|entries| - 1];
      TiersAreRead(names, front, tier);
      SomeStep(IsTierRow(names, tier), entries);
      forall j | LastOf(IsTierRow(names, tier), entries, j)
        ensures tier in ParseTiers(names, entries)
        ensures ParseTiers(names, entries)[tier] == FromEntry(entries[j].1.entries)
      {
        LastOfStep(IsTierRow(names, tier), entries, j);
      }
    }
  }

  /** The same for an agent. */
  lemma {:induction false} AgentsAreRead(names: Names, entries: seq<(string, Json)>, agent: string)
    ensures agent in ParseAgents(names, entries) <==> AnyOf(IsAgentRow(names, agent), entries)
    ensures forall j | LastOf(IsAgentRow(names, agent), entries, j) ::
      && agent in ParseAgents(names, entries)
      && ParseAgents(names, entries)[agent] == ParseTiers(names, Merged(entries[j].1.entries))
  {
    if entries != [] {
      var front := entries[..|entries| - 1];
      AgentsAreRead(names, front, agent);
      SomeStep(IsAgentRow(names, agent), entries);
      forall j | LastOf(IsAgentRow(names, agent), entries, j)
        ensures agent in ParseAgents(names, entries)
        ensures ParseAgents(names, entries)[agent] == ParseTiers(names, Merged(entries[j].1.entries))
      {
        LastOfStep(IsAgentRow(names, agent), entries, j);
      }
    }
  }

  // ----- one edit

  datatype Edit = Edit(harness: string, tier: string, override: Option<Override>)

  /** `with_override`: one entry replaced or removed, and no empty agent left behind. */
  function WithOverride(tiers: Tiers, e: Edit): Tiers {
    var own := if e.harness in tiers then tiers[e.harness] else map[];
    var changed := match e.override case None => own - {e.tier} case Some(o) => own[e.tier := o];
    if changed == map[] then tiers - {e.harness} else tiers[e.harness := changed]
  }

  function Cell(tiers: Tiers, harness: string, tier: string): Option<Override> {
    if harness in tiers && tier in tiers[harness] then Some(tiers[harness][tier]) else None
  }

  ghost predicate StorableEdit(names: Names, e: Edit) {
    e.harness in names.agents && e.tier in TIER_NAMES && (e.override.Some? ==> Storable(e.override.value))
  }

  /** An edit on its way to the file. A file that cannot be read at that moment loads as empty. */
  datatype Attempt = Attempt(edit: Edit, readFails: bool)

  /** Load, override, save: what `_commit_harness_tier` makes of the file. */
  function Commit(names: Names): (File, Attempt) -> File {
    (file: File, a: Attempt) =>
      Parsed(AsDocument(names, WithOverride(if a.readFails then map[] else Load(names, file), a.edit)))
  }

  /** One edit sets its own cell and no other. */
  lemma EditSetsOneCell(tiers: Tiers, e: Edit, harness: string, tier: string)
    ensures Cell(WithOverride(tiers, e), harness, tier) ==
      if harness == e.harness && tier == e.tier then e.override else Cell(tiers, harness, tier)
  {
    var own := if e.harness in tiers then tiers[e.harness] else map[];
    var changed := match e.override case None => own - {e.tier} case Some(o) => own[e.tier := o];
    if harness == e.harness {
      match e.override {
        case None => assert forall t :: t in changed <==> t in own && t != e.tier;
        case Some(o) => assert e.tier in changed;
      }
      assert Cell(WithOverride(tiers, e), harness, tier) == if tier in changed then Some(changed[tier]) else None;
    }
  }

  lemma EditIsStorable(names: Names, tiers: Tiers, e: Edit)
    requires StorableTiers(names, tiers) && StorableEdit(names, e)
    ensures StorableTiers(names, WithOverride(tiers, e))
  {
  }

  // ----- the request

  datatype Payload = Payload(
    harness: string, tier: string, override: bool, model: string, fallbacks: seq<string>, paused: seq<string>)

  datatype Response = Accepted(edit: Edit) | UnknownAgent | UnknownTier | RejectedRefs

  /** `_clean_list`: stripped, blanks dropped, first occurrences kept. */
  method CleanList(values: seq<string>) returns (cleaned: seq<string>)
    ensures cleaned == Dedup(KeepFields(values))
  {
    cleaned := [];
    for i := 0 to |values|
      invariant cleaned == Dedup(KeepFields(values[..i]))
    {
      var ref := Strip(values[i]);
      assert values[..i + 1] == values[..i] + [values[i]];
      KeepFieldsAppend(values[..i], [values[i]]);
      var kept := KeepFields(values[..i]);
      assert KeepFields([values[i]]) == if ref == "" then [] else [ref];
      assert ref != "" ==> (kept + [ref])[..|kept|] == kept;
      assert ref == "" ==> kept + [] == kept;
      if ref != "" && ref !in cleaned {
        cleaned := cleaned + [ref];
      }
    }
    assert values[..|values|] == values;
  }

  /** A ref in the request that may not be stored: said, but not a valid ref. */
  ghost predicate Rejected(ref: string) {
    ref != "" && !ValidRef(Strip(ref))
  }

  method AnyRejected(refs: seq<string>) returns (found: bool)
    ensures found <==> exists i :: 0 <= i < |refs| && Rejected(refs[i])
  {
    for i := 0 to |refs|
      invariant forall k | 0 <= k < i :: !Rejected(refs[k])
    {
      if refs[i] != "" && !ValidRef(Strip(refs[i])) {
        return true;
      }
    }
    found := false;
  }

  /** The refs a payload asks to store. */
  function Asked(payload: Payload): seq<string> {
    (if Strip(payload.model) == "" then [] else [Strip(payload.model)]) + payload.fallbacks + payload.paused
  }

  lemma KeptAreStored(values: seq<string>)
    requires forall i | 0 <= i < |values| :: !Rejected(values[i])
    ensures StoredRefs(Dedup(KeepFields(values)))
  {
    KeptAreValid(values);
    DedupIsStored(KeepFields(values));
  }

  lemma DedupIsStored(refs: seq<string>)
    requires forall r | r in refs :: StoredRef(r)
    ensures StoredRefs(Dedup(refs))
  {
    DedupFacts(refs);
    var kept := Dedup(refs);
    forall i | 0 <= i < |kept| ensures StoredRef(kept[i]) {
      assert kept[i] in kept;
    }
  }

  lemma {:induction false} KeptAreValid(values: seq<string>)
    requires forall i | 0 <= i < |values| :: !Rejected(values[i])
    ensures forall r | r in KeepFields(values) :: StoredRef(r)
  {
    if values != [] {
      assert forall i | 0 <= i < |values| - 1 :: values[1..][i] == values[i + 1];
      KeptAreValid(values[1..]);
      StripTwice(values[0]);
      assert Strip("") == "";
    }
  }

  /** `set_harness_tier` up to the commit: a request is refused exactly for the three reasons
      given, and what is accepted can be stored as it is. */
  method SetHarnessTier(names: Names, payload: Payload) returns (r: Response)
    ensures r.UnknownAgent? <==> payload.harness !in names.agents
    ensures r.UnknownTier? <==> payload.harness in names.agents && names.name(payload.tier) !in TIER_NAMES
    ensures r.RejectedRefs? <==>
      && payload.harness in names.agents && names.name(payload.tier) in TIER_NAMES && payload.override
      && exists i :: 0 <= i < |Asked(payload)| && Rejected(Asked(payload)[i])
    ensures r.Accepted? ==> StorableEdit(names, r.edit)
    ensures r.Accepted? ==>
      && r.edit.harness == payload.harness && r.edit.tier == names.name(payload.tier)
      && (r.edit.override.Some? <==> payload.override)
    ensures r.Accepted? && payload.override ==> Built(payload, r.edit.override.value)
  {
    if payload.harness !in names.agents {
      return UnknownAgent;
    }
    var tier := names.name(payload.tier);
    if tier !in TIER_NAMES {
      return UnknownTier;
    }
    if !payload.override {
      return Accepted(Edit(payload.harness, tier, None));
    }
    var rejected := AnyRejected(Asked(payload));
    if rejected {
      return RejectedRefs;
    }
    var override := BuildOverride(payload);
    r := Accepted(Edit(payload.harness, tier, Some(override)));
  }

  method BuildOverride(payload: Payload) returns (override: Override)
    requires forall i | 0 <= i < |Asked(payload)| :: !Rejected(Asked(payload)[i])
    ensures Storable(override) && Built(payload, override)
  {
    NothingAskedIsRejected(payload);
    KeptAreStored(payload.fallbacks);
    KeptAreStored(payload.paused);
    StripTwice(payload.model);
    var model := Strip(payload.model);
    var fallbacks := CleanList(payload.fallbacks);
    var paused := CleanList(payload.paused);
    override := Override(if model == "" then None else Some(model), fallbacks, paused);
  }

  /** The stored override says what the payload says, cleaned. */
  ghost predicate Built(payload: Payload, o: Override) {
    && o.model == (if Strip(payload.model) == "" then None else Some(Strip(payload.model)))
    && o.fallbacks == Dedup(KeepFields(payload.fallbacks))
    && o.paused == Dedup(KeepFields(payload.paused))
  }

  lemma NothingAskedIsRejected(payload: Payload)
    requires forall i | 0 <= i < |Asked(payload)| :: !Rejected(Asked(payload)[i])
    ensures !Rejected(Strip(payload.model))
    ensures forall i | 0 <= i < |payload.fallbacks| :: !Rejected(payload.fallbacks[i])
    ensures forall i | 0 <= i < |payload.paused| :: !Rejected(payload.paused[i])
  {
    var model := if Strip(payload.model) == "" then [] else [Strip(payload.model)];
    NoneRejectedInParts(Asked(payload), model, payload.fallbacks, payload.paused);
    assert model != [] ==> model[0] == Strip(payload.model);
  }

  lemma NoneRejectedInParts(all: seq<string>, a: seq<string>, b: seq<string>, c: seq<string>)
    requires all == a + b + c && forall i | 0 <= i < |all| :: !Rejected(all[i])
    ensures forall i | 0 <= i < |a| :: !Rejected(a[i])
    ensures forall i | 0 <= i < |b| :: !Rejected(b[i])
    ensures forall i | 0 <= i < |c| :: !Rejected(c[i])
  {
    forall i | 0 <= i < |a| ensures !Rejected(a[i]) { assert a[i] == all[i]; }
    forall i | 0 <= i < |b| ensures !Rejected(b[i]) { assert b[i] == all[|a| + i]; }
    forall i | 0 <= i < |c| ensures !Rejected(c[i]) { assert c[i] == all[|a| + |b| + i]; }
  }

  // ----- many writers

  /** What the attempts say about a cell, if they do: the last edit of it, or that it is empty since
      the last unreadable file. */
  ghost function LastSaid(attempts: seq<Attempt>, harness: string, tier: string): Option<Option<Override>> {
    if attempts == [] then None
    else
      var a := attempts[|attempts| - 1];
      if a.edit.harness == harness && a.edit.tier == tier then Some(a.edit.override)
      else if a.readFails then Some(None)
      else LastSaid(attempts[..|attempts| - 1], harness, tier)
  }

  ghost predicate StorableAttempts(names: Names, attempts: seq<Attempt>) {
    forall i | 0 <= i < |attempts| :: StorableEdit(names, attempts[i].edit)
  }

  lemma OneCommit(names: Names, file: File, a: Attempt, harness: string, tier: string)
    requires names.Valid() && StorableEdit(names, a.edit)
    ensures Cell(Load(names, Commit(names)(file, a)), harness, tier) ==
      if a.edit.harness == harness && a.edit.tier == tier then a.edit.override
      else if a.readFails then None
      else Cell(Load(names, file), harness, tier)
  {
    var before := if a.readFails then map[] else Load(names, file);
    LoadedIsStorable(names, file);
    EditIsStorable(names, before, a.edit);
    DocumentRoundTrip(names, WithOverride(before, a.edit));
    EditSetsOneCell(before, a.edit, harness, tier);
  }

  lemma {:induction false} FoldedCell(
    names: Names, initial: File, attempts: seq<Attempt>, harness: string, tier: string)
    requires names.Valid() && StorableAttempts(names, attempts)
    ensures Cell(Load(names, Fold(Commit(names), initial, attempts)), harness, tier) ==
      match LastSaid(attempts, harness, tier)
      case Some(said) => said
      case None => Cell(Load(names, initial), harness, tier)
  {
    if attempts != [] {
      var front, a := attempts[..|attempts| - 1], attempts[|attempts| - 1];
      FoldedCell(names, initial, front, harness, tier);
      OneCommit(names, Fold(Commit(names), initial, front), a, harness, tier);
    }
  }

  lemma {:induction false} CommittedAreStorable(
    names: Names, attempts: seq<Attempt>, s: State<File>, order: seq<nat>)
    requires InRange(attempts, order) && StorableAttempts(names, attempts)
    ensures StorableAttempts(names, CommittedEdits(attempts, s, order))
  {
    if order != [] {
      CommittedAreStorable(names, attempts, s, order[..|order| - 1]);
    }
  }

  /** In every interleaving of any number of tier edits, at every moment, each (agent, tier) cell that
      is loaded from the file holds its last committed edit, or what the file said at the start when no
      committed edit touched it; a file that could not be read in between counts as empty. */
  lemma EveryCellHoldsItsLastEdit(
    names: Names, initial: File, attempts: seq<Attempt>, acts: seq<Action>, harness: string, tier: string)
    requires After(Commit(names), attempts, true, initial, acts).Some?
    requires names.Valid() && StorableAttempts(names, attempts)
    ensures var s := After(Commit(names), attempts, true, initial, acts).value;
      && InRange(attempts, LockOrder(acts))
      && Cell(Load(names, s.doc), harness, tier) ==
           match LastSaid(CommittedEdits(attempts, s, LockOrder(acts)), harness, tier)
           case Some(said) => said
           case None => Cell(Load(names, initial), harness, tier)
  {
    NoLostUpdate(Commit(names), attempts, initial, acts);
    var s := After(Commit(names), attempts, true, initial, acts).value;
    CommittedAreStorable(names, attempts, s, LockOrder(acts));
    FoldedCell(names, initial, CommittedEdits(attempts, s, LockOrder(acts)), harness, tier);
  }

  /** Without the lock: two agents' edits of a new file both finish, and the first one is not in it. */
  lemma UnlockedTierEditIsLost(names: Names, first: Edit, second: Edit)
    requires names.Valid() && StorableEdit(names, first) && StorableEdit(names, second)
    requires first.override.Some? && first.harness != second.harness
    ensures var end := After(Commit(names), [Attempt(first, false), Attempt(second, false)], false, Unusable, RACE);
      && end.Some?
      && PhaseOf(end.value, 0).Finished? && PhaseOf(end.value, 1).Finished?
      && Cell(Load(names, end.value.doc), first.harness, first.tier) == None
  {
    UnlockedLosesUpdate(Commit(names), Unusable, Attempt(first, false), Attempt(second, false));
    OneCommit(names, Unusable, Attempt(second, false), first.harness, first.tier);
    assert Load(names, Unusable) == map[];
  }
}
