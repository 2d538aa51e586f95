/** What disabling a custom provider does to the refs that the routes serve, said of the settings
    themselves (route_refs.py, admin_custom_routes.py). */
module ServedRefs {
  import opened Text
  import opened PauseLists
  import opened PauseLedger

  function Primary(settings: Settings, route: Route): string {
    Strip(TextOf(settings, route.modelKey))
  }

  /** The ref is the route's primary or one of its fallbacks. */
  ghost predicate Serves(settings: Settings, route: Route, ref: string) {
    (ref != "" && ref == Primary(settings, route)) || ref in Refs(settings, route.chainKey)
  }

  /** A served ref of the provider that is not paused. */
  ghost predicate Unpaused(settings: Settings, route: Route, provider: string, ref: string) {
    Serves(settings, route, ref) && Names(ref, provider) && ref !in Refs(settings, route.pausedKey)
  }

  ghost predicate HasUnpaused(settings: Settings, route: Route, provider: string) {
    exists ref :: Unpaused(settings, route, provider, ref)
  }

  /** The primary comes before the fallbacks, and these in their order. */
  ghost predicate ServedBefore(settings: Settings, route: Route, a: string, b: string) {
    && a != b && b != Primary(settings, route)
    && (a == Primary(settings, route) || Precedes(Refs(settings, route.chainKey), a, b))
  }

  ghost predicate Precedes(refs: seq<string>, a: string, b: string) {
    exists i, j :: 0 <= i < j < |refs| && refs[i] == a && refs[j] == b
  }

  lemma AddedMeaning(settings: Settings, route: Route, provider: string)
    ensures forall ref :: ref in Added(settings, route, provider) <==> Unpaused(settings, route, provider, ref)
    ensures Added(settings, route, provider) != [] <==> HasUnpaused(settings, route, provider)
    ensures Distinct(Added(settings, route, provider))
  {
    var added := Added(settings, route, provider);
    NewPausesFacts(Refs(settings, route.pausedKey), Chain(settings, route), provider);
    forall ref ensures ref in Added(settings, route, provider) <==> Unpaused(settings, route, provider, ref) {
      assert ref in Chain(settings, route) <==> Serves(settings, route, ref);
    }
    if added != [] {
      assert added[0] in added && Unpaused(settings, route, provider, added[0]);
    }
  }

  // ----- the pause list

  /** What the list of a route says of any ref after an accepted disable: if the route serves a ref of
      the provider that was not paused, what was paused is, and every piece of a served ref of the
      provider; if not, the list is what the write starts from. A locked list is as it was. */
  lemma DisablePauses(w: World, layout: Layout, provider: string, i: nat, ref: string)
    requires layout.Valid() && i < |layout.routes| && Coherent(layout.sources, w.config)
    requires provider in w.entries && w.entries[provider].enabled
    ensures var key, settings := layout.routes[i].pausedKey, w.config.running;
      PausedIn(Disabled(w, layout, provider, true).config, key, ref) <==>
        if key in layout.sources.locked then PausedIn(w.config, key, ref)
        else if HasUnpaused(settings, layout.routes[i], provider)
        then PausedIn(w.config, key, ref) || PieceServed(settings, layout.routes[i], provider, ref)
        else ref in Refs(Base(layout.sources, w.config), key)
  {
    var route, settings := layout.routes[i], w.config.running;
    var added := Added(settings, route, provider);
    RefsAfterDisable(w.config, layout, i, provider);
    AddedMeaning(settings, route, provider);
    PiecesOfServed(settings, route, provider, ref);
  }

  ghost predicate PieceServed(settings: Settings, route: Route, provider: string, piece: string) {
    exists ref :: Serves(settings, route, ref) && Names(ref, provider) && piece in Fields(ref)
  }

  lemma PiecesOfServed(settings: Settings, route: Route, provider: string, piece: string)
    ensures piece in Refs(settings, route.pausedKey) || piece in ConcatFields(Added(settings, route, provider)) <==>
      piece in Refs(settings, route.pausedKey) || PieceServed(settings, route, provider, piece)
  {
    var paused, added := Refs(settings, route.pausedKey), Added(settings, route, provider);
    AddedMeaning(settings, route, provider);
    ConcatFieldsMeaning(added, piece);
    if ref :| Serves(settings, route, ref) && Names(ref, provider) && piece in Fields(ref) && ref !in added {
      assert ref in paused;
      ParseRefsClean(TextOf(settings, route.pausedKey));
      FieldsOfClean(ref);
    }
  }

  lemma {:induction false} ConcatFieldsMeaning(refs: seq<string>, piece: string)
    ensures piece in ConcatFields(refs) <==> exists ref :: ref in refs && piece in Fields(ref)
  {
    if refs != [] {
      ConcatFieldsMeaning(refs[1..], piece);
      assert refs == [refs[0]] + refs[1..];
    }
  }

  /** A served ref of the provider without a comma is paused afterwards, on a list that is not locked,
      exactly when some served ref of the provider was not paused, or the write starts from its pause:
      so it is if it was not paused, and if its list is lasting. */
  lemma ServedRefIsPaused(w: World, layout: Layout, provider: string, i: nat, ref: string)
    requires layout.Valid() && i < |layout.routes| && Coherent(layout.sources, w.config)
    requires provider in w.entries && w.entries[provider].enabled
    requires Serves(w.config.running, layout.routes[i], ref) && Names(ref, provider) && ',' !in ref
    requires layout.routes[i].pausedKey !in layout.sources.locked
    ensures var key := layout.routes[i].pausedKey;
      var paused := PausedIn(Disabled(w, layout, provider, true).config, key, ref);
      && (paused <==> HasUnpaused(w.config.running, layout.routes[i], provider)
                      || ref in Refs(Base(layout.sources, w.config), key))
      && (!PausedIn(w.config, key, ref) ==> paused)
      && (Lasting(layout.sources, w.config, key) ==> paused)
  {
    var route, settings := layout.routes[i], w.config.running;
    DisablePauses(w, layout, provider, i, ref);
    ServedIsClean(settings, route, ref);
    FieldsOfClean(ref);
    assert PieceServed(settings, route, provider, ref);
    assert !PausedIn(w.config, route.pausedKey, ref) ==> Unpaused(settings, route, provider, ref);
  }

  lemma ServedIsClean(settings: Settings, route: Route, ref: string)
    requires Serves(settings, route, ref) && ',' !in ref
    ensures CleanField(ref)
  {
    TrimTight(IsSpace, TextOf(settings, route.modelKey));
    ParseRefsClean(TextOf(settings, route.chainKey));
  }

  // ----- the ledger

  /** The fresh pairs are the served refs of the provider that were not paused. */
  ghost predicate RecordsUnpaused(settings: Settings, routes: seq<Route>, provider: string, pairs: seq<Pair>) {
    && Distinct(pairs)
    && (forall pair :: pair in pairs <==> Recorded(settings, routes, provider, pair))
  }

  ghost predicate Recorded(settings: Settings, routes: seq<Route>, provider: string, pair: Pair) {
    exists i :: 0 <= i < |routes| && OwnPair(settings, routes[i], provider, pair)
  }

  /** Route by route, and on a route in the order in which it serves. */
  ghost predicate InOrder(settings: Settings, routes: seq<Route>, pairs: seq<Pair>) {
    forall a, b | 0 <= a < b < |pairs| :: ComesBefore(settings, routes, pairs[a], pairs[b])
  }

  ghost predicate ComesBefore(settings: Settings, routes: seq<Route>, a: Pair, b: Pair) {
    exists i, j :: 0 <= i <= j < |routes| && routes[i].pausedKey == a.0 && routes[j].pausedKey == b.0
      && (i == j ==> ServedBefore(settings, routes[i], a.1, b.1))
  }

  /** An accepted disable adds to the ledger exactly the served refs of the provider that were not
      paused, each once, in the order of the routes and of what they serve. */
  lemma LedgerRecordsUnpaused(w: World, layout: Layout, provider: string)
    requires layout.Valid() && provider in w.entries && w.entries[provider].enabled
    ensures var before, now := w.entries[provider].ledger, Disabled(w, layout, provider, true).entries[provider].ledger;
      && before <= now
      && RecordsUnpaused(w.config.running, layout.routes, provider, now[|before|..])
      && InOrder(w.config.running, layout.routes, now[|before|..])
  {
    var before, pairs := w.entries[provider].ledger, AddedPairs(w.config.running, layout.routes, provider);
    assert (before + pairs)[|before|..] == pairs;
    PairsOfRoutes(w.config.running, layout.routes, provider);
  }

  lemma PairsOfLastRoute(settings: Settings, routes: seq<Route>, provider: string)
    requires routes != []
    ensures var front, last := routes[..|routes| - 1], routes[|routes| - 1];
      AddedPairs(settings, routes, provider) ==
        AddedPairs(settings, front, provider) + PairsOf(last.pausedKey, Added(settings, last, provider))
  {
    var front := routes[..|routes| - 1];
    assert Plan(settings, routes, provider)[..|front|] == Plan(settings, front, provider);
  }

  lemma {:induction false} PairsOfRoutes(settings: Settings, routes: seq<Route>, provider: string)
    requires DistinctKeys(routes)
    ensures RecordsUnpaused(settings, routes, provider, AddedPairs(settings, routes, provider))
    ensures InOrder(settings, routes, AddedPairs(settings, routes, provider))
  {
    if routes != [] {
      var front, last := routes[..|routes| - 1], routes[|routes| - 1];
      PairsOfRoutes(settings, front, provider);
      PairsOfLastRoute(settings, routes, provider);
      var pairs := AddedPairs(settings, front, provider);
      var more := PairsOf(last.pausedKey, Added(settings, last, provider));
      OwnPairs(settings, last, provider);
      MorePairs(settings, routes, provider, pairs, more);
      MoreInOrder(settings, routes, provider, pairs, more);
    }
  }

  ghost predicate OwnPair(settings: Settings, route: Route, provider: string, pair: Pair) {
    pair.0 == route.pausedKey && Unpaused(settings, route, provider, pair.1)
  }

  lemma PairsOfRefs(key: string, refs: seq<string>)
    requires Distinct(refs)
    ensures Distinct(PairsOf(key, refs))
    ensures forall pair :: pair in PairsOf(key, refs) <==> pair.0 == key && pair.1 in refs
  {
    var pairs := PairsOf(key, refs);
    forall pair ensures pair in pairs <==> pair.0 == key && pair.1 in refs {
      if pair.0 == key && pair.1 in refs {
        var k :| 0 <= k < |refs| && refs[k] == pair.1;
        assert pairs[k] == pair;
      }
    }
  }

  /** The pairs of one route. */
  lemma OwnPairs(settings: Settings, route: Route, provider: string)
    ensures var pairs := PairsOf(route.pausedKey, Added(settings, route, provider));
      && Distinct(pairs)
      && (forall pair :: pair in pairs <==> OwnPair(settings, route, provider, pair))
      && (forall a, b | 0 <= a < b < |pairs| :: ServedBefore(settings, route, pairs[a].1, pairs[b].1))
  {
    AddedMeaning(settings, route, provider);
    AddedInOrder(settings, route, provider);
    PairsOfRefs(route.pausedKey, Added(settings, route, provider));
  }

  lemma MorePairs(settings: Settings, routes: seq<Route>, provider: string, pairs: seq<Pair>, more: seq<Pair>)
    requires DistinctKeys(routes) && routes != []
    requires RecordsUnpaused(settings, routes[..|routes| - 1], provider, pairs) && Distinct(more)
    requires forall pair :: pair in more <==> OwnPair(settings, routes[|routes| - 1], provider, pair)
    ensures RecordsUnpaused(settings, routes, provider, pairs + more)
  {
    forall pair ensures pair in pairs + more <==> Recorded(settings, routes, provider, pair) {
      RecordedStep(settings, routes, provider, pair);
    }
    forall pair | pair in pairs ensures pair !in more {
      OtherKey(settings, routes, provider, pair);
    }
    DistinctTogether(pairs, more);
  }

  lemma DistinctTogether<T>(a: seq<T>, b: seq<T>)
    requires Distinct(a) && Distinct(b) && forall x | x in a :: x !in b
    ensures Distinct(a + b)
  {
    var all := a + b;
    forall i, j | 0 <= i < j < |all| ensures all[i] != all[j] {
      if i < |a| <= j {
        assert all[i] in a && all[j] in b;
      }
    }
  }

  lemma RecordedStep(settings: Settings, routes: seq<Route>, provider: string, pair: Pair)
    requires routes != []
    ensures Recorded(settings, routes, provider, pair) <==>
      || Recorded(settings, routes[..|routes| - 1], provider, pair)
      || OwnPair(settings, routes[|routes| - 1], provider, pair)
  {
    var front := routes[..|routes| - 1];
    if Recorded(settings, routes, provider, pair) {
      var i :| 0 <= i < |routes| && OwnPair(settings, routes[i], provider, pair);
      assert i < |front| ==> front[i] == routes[i];
    }
    if Recorded(settings, front, provider, pair) {
      var i :| 0 <= i < |front| && OwnPair(settings, front[i], provider, pair);
      assert routes[i] == front[i];
    }
  }

  lemma OtherKey(settings: Settings, routes: seq<Route>, provider: string, pair: Pair)
    requires DistinctKeys(routes) && routes != []
    requires Recorded(settings, routes[..|routes| - 1], provider, pair)
    ensures pair.0 != routes[|routes| - 1].pausedKey
  {
    var front := routes[..|routes| - 1];
    var i :| 0 <= i < |front| && OwnPair(settings, front[i], provider, pair);
    assert routes[i] == front[i];
  }

  lemma MoreInOrder(settings: Settings, routes: seq<Route>, provider: string, pairs: seq<Pair>, more: seq<Pair>)
    requires routes != [] && InOrder(settings, routes[..|routes| - 1], pairs)
    requires RecordsUnpaused(settings, routes[..|routes| - 1], provider, pairs)
    requires forall pair | pair in more :: pair.0 == routes[|routes| - 1].pausedKey
    requires forall a, b | 0 <= a < b < |more| ::
      ServedBefore(settings, routes[|routes| - 1], more[a].1, more[b].1)
    ensures InOrder(settings, routes, pairs + more)
  {
    var all, front := pairs + more, routes[..|routes| - 1];
    forall a, b | 0 <= a < b < |all| ensures ComesBefore(settings, routes, all[a], all[b]) {
      if b < |pairs| {
        assert ComesBefore(settings, front, pairs[a], pairs[b]);
        OneMoreRoute(settings, routes, pairs[a], pairs[b]);
      } else if a < |pairs| {
        assert pairs[a] in pairs && more[b - |pairs|] in more;
        assert Recorded(settings, front, provider, pairs[a]);
        var i :| 0 <= i < |front| && OwnPair(settings, front[i], provider, pairs[a]);
        LaterRoute(settings, routes, i, all[a], all[b]);
      } else {
        assert all[a] == more[a - |pairs|] && all[b] == more[b - |pairs|];
        assert all[a] in more && all[b] in more;
        SameRoute(settings, routes, all[a], all[b]);
      }
    }
  }

  lemma OneMoreRoute(settings: Settings, routes: seq<Route>, a: Pair, b: Pair)
    requires routes != [] && ComesBefore(settings, routes[..|routes| - 1], a, b)
    ensures ComesBefore(settings, routes, a, b)
  {
    var front := routes[..|routes| - 1];
    var i, j :| 0 <= i <= j < |front| && front[i].pausedKey == a.0 && front[j].pausedKey == b.0
      && (i == j ==> ServedBefore(settings, front[i], a.1, b.1));
    assert routes[i] == front[i] && routes[j] == front[j];
  }

  lemma LaterRoute(settings: Settings, routes: seq<Route>, i: nat, a: Pair, b: Pair)
    requires i < |routes| - 1 && routes[i].pausedKey == a.0 && routes[|routes| - 1].pausedKey == b.0
    ensures ComesBefore(settings, routes, a, b)
  {
  }

  lemma SameRoute(settings: Settings, routes: seq<Route>, a: Pair, b: Pair)
    requires routes != [] && a.0 == b.0 == routes[|routes| - 1].pausedKey
    requires ServedBefore(settings, routes[|routes| - 1], a.1, b.1)
    ensures ComesBefore(settings, routes, a, b)
  {
  }

  // ----- the order of what is added

  /** Where the ref first is, or the length. */
  ghost function FirstAt(refs: seq<string>, ref: string): (n: nat)
    ensures n <= |refs| && (n < |refs| ==> refs[n] == ref)
    ensures forall k | 0 <= k < n :: refs[k] != ref
  {
    if refs == [] then 0
    else
      var n := FirstAt(refs[..|refs| - 1], ref);
      if n < |refs| - 1 || refs[|refs| - 1] == ref then n else |refs|
  }

  lemma FirstAtFront(refs: seq<string>, ref: string)
    requires refs != []
    ensures var front := refs[..|refs| - 1];
      && (ref in front ==> FirstAt(refs, ref) == FirstAt(front, ref) < |front|)
      && (ref !in front && refs[|refs| - 1] == ref ==> FirstAt(refs, ref) == |front|)
  {
    var front := refs[..|refs| - 1];
    if ref in front {
      var k :| 0 <= k < |front| && front[k] == ref;
      assert FirstAt(front, ref) <= k;
    }
  }

  ghost predicate FirstOrder(chain: seq<string>, refs: seq<string>) {
    forall a, b | 0 <= a < b < |refs| :: FirstAt(chain, refs[a]) < FirstAt(chain, refs[b])
  }

  lemma FirstOrderGrows(chain: seq<string>, refs: seq<string>)
    requires chain != [] && FirstOrder(chain[..|chain| - 1], refs)
    requires forall r | r in refs :: r in chain[..|chain| - 1]
    ensures FirstOrder(chain, refs)
    ensures chain[|chain| - 1] !in chain[..|chain| - 1] ==> FirstOrder(chain, refs + [chain[|chain| - 1]])
  {
    var front, last := chain[..|chain| - 1], chain[|chain| - 1];
    forall a | 0 <= a < |refs| ensures FirstAt(chain, refs[a]) == FirstAt(front, refs[a]) < |front| {
      assert refs[a] in refs;
      FirstAtFront(chain, refs[a]);
    }
    FirstAtFront(chain, last);
  }

  lemma {:induction false} NewPausesInOrder(paused: seq<string>, chain: seq<string>, provider: string)
    ensures FirstOrder(chain, NewPauses(paused, chain, provider))
  {
    if chain != [] {
      var front, last := chain[..|chain| - 1], chain[|chain| - 1];
      NewPausesInOrder(paused, front, provider);
      NewPausesFacts(paused, front, provider);
      FirstOrderGrows(chain, NewPauses(paused, front, provider));
    }
  }

  lemma AddedInOrder(settings: Settings, route: Route, provider: string)
    ensures var added := Added(settings, route, provider);
      forall a, b | 0 <= a < b < |added| :: ServedBefore(settings, route, added[a], added[b])
  {
    var added := Added(settings, route, provider);
    NewPausesInOrder(Refs(settings, route.pausedKey), Chain(settings, route), provider);
    forall a, b | 0 <= a < b < |added| ensures ServedBefore(settings, route, added[a], added[b]) {
      AddedIsInChain(settings, route, provider, added[b]);
      FirstInChain(settings, route, added[a], added[b]);
    }
  }

  lemma AddedIsInChain(settings: Settings, route: Route, provider: string, ref: string)
    ensures ref in Added(settings, route, provider) ==> ref in Chain(settings, route)
  {
    NewPausesFacts(Refs(settings, route.pausedKey), Chain(settings, route), provider);
  }

  lemma FirstInChain(settings: Settings, route: Route, a: string, b: string)
    requires b in Chain(settings, route)
    requires FirstAt(Chain(settings, route), a) < FirstAt(Chain(settings, route), b)
    ensures ServedBefore(settings, route, a, b)
  {
    NoBlankRefs(TextOf(settings, route.chainKey));
    FirstInList(Primary(settings, route), Refs(settings, route.chainKey), Chain(settings, route), a, b);
  }

  lemma NoBlankRefs(text: string)
    ensures "" !in ParseRefs(text)
  {
    ParseRefsClean(text);
    forall k | 0 <= k < |ParseRefs(text)| ensures ParseRefs(text)[k] != "" {
      assert CleanField(ParseRefs(text)[k]);
    }
  }

  lemma FirstInList(primary: string, refs: seq<string>, chain: seq<string>, a: string, b: string)
    requires chain == (if primary == "" then [] else [primary]) + refs && "" !in refs
    requires b in chain && FirstAt(chain, a) < FirstAt(chain, b)
    ensures a != b && b != primary && (a == primary || Precedes(refs, a, b))
  {
    var i, j := FirstAt(chain, a), FirstAt(chain, b);
    var k :| 0 <= k < |chain| && chain[k] == b;
    assert j <= k && chain[i] == a && chain[j] == b;
    if primary == "" {
      assert refs[i] == a && refs[j] == b;
    } else {
      assert chain[0] == primary && refs[j - 1] == b;
      assert i > 0 ==> refs[i - 1] == a && Precedes(refs, a, b);
    }
  }
}
