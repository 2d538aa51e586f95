/** The pause lists of the routes as settings text, and what a settings write makes of them
    (route_refs.py, persistence.py, validation.py). */
module PauseLists {
  import opened Text

  /** The settings as text, by environment key. */
  type Settings = map<string, string>

  /** Where settings come from besides the managed file: which keys are settings (FIELD_BY_KEY), the
      repo `.env`, the locked sources (the process environment and an explicit env file), the defaults
      in the code, and which names that are no settings a write carries over in the managed file. */
  datatype Sources = Sources(
    fields: set<string>, repo: Settings, locked: Settings, defaults: Settings, kept: set<string>)

  /** The settings the server runs with, the settings in the managed file, and the other names there. */
  datatype Config = Config(running: Settings, managed: Settings, others: set<string>)

  function TextOf(settings: Settings, key: string): string {
    if key in settings then settings[key] else ""
  }

  function Refs(settings: Settings, key: string): seq<string> {
    ParseRefs(TextOf(settings, key))
  }

  ghost predicate PausedIn(config: Config, key: string, ref: string) {
    ref in Refs(config.running, key)
  }

  // ----- a settings write

  /** Nothing is in the managed file. */
  predicate Unwritten(config: Config) {
    config.managed == map[] && config.others == {}
  }

  /** What a write starts from: the managed file, or the repo `.env` when nothing is in the file. */
  function Base(s: Sources, config: Config): Settings {
    if Unwritten(config) then map k | k in s.repo && k in s.fields && k !in s.locked :: s.repo[k]
    else config.managed
  }

  /** The updates that are made: names that are no settings and locked keys are skipped without an
      error. */
  function Made(s: Sources, updates: Settings): Settings {
    map k | k in updates && k in s.fields && k !in s.locked :: updates[k]
  }

  /** `target_values_with_updates`: a blank removes the line, unless the repo `.env` has the key. */
  function Target(s: Sources, config: Config, updates: Settings): Settings {
    var base, made := Base(s, config), Made(s, updates);
    map k | k in base.Keys + made.Keys && (k in made ==> made[k] != "" || k in s.repo) ::
      if k in made then made[k] else base[k]
  }

  /** An accepted write. The server goes on with what the managed file now says and the locked sources,
      over the defaults: the repo `.env` is not read again. */
  function Write(s: Sources, config: Config, updates: Settings): Config {
    var target := Target(s, config, updates);
    Config(s.defaults + target + s.locked, target, config.others * s.kept)
  }

  /** How the server starts: every source over the one before. */
  function Started(s: Sources, managed: Settings, others: set<string>): Config {
    Config(s.defaults + s.repo + managed + s.locked, managed, others)
  }

  /** The server runs with what the locked sources and the managed file say. */
  ghost predicate Coherent(s: Sources, config: Config) {
    && (forall k | k in s.locked :: TextOf(config.running, k) == s.locked[k])
    && (forall k | k in config.managed && k !in s.locked :: TextOf(config.running, k) == config.managed[k])
  }

  lemma StartedIsCoherent(s: Sources, managed: Settings, others: set<string>)
    ensures Coherent(s, Started(s, managed, others))
  {
  }

  lemma WrittenIsCoherent(s: Sources, config: Config, updates: Settings)
    ensures Coherent(s, Write(s, config, updates))
  {
  }

  /** A setting that holds a pause list: it has no default. */
  predicate PauseKey(s: Sources, key: string) {
    key in s.fields && TextOf(s.defaults, key) == ""
  }

  /** What a write makes of any pause list: a locked one is as it was, one of the updates is what the
      update says, and any other is what the write started from. */
  lemma RefsAfterWrite(s: Sources, config: Config, updates: Settings, key: string)
    requires Coherent(s, config) && PauseKey(s, key)
    ensures Refs(Write(s, config, updates).running, key) ==
      if key in s.locked then Refs(config.running, key)
      else if key in updates then ParseRefs(updates[key])
      else Refs(Base(s, config), key)
  {
    TextAfterWrite(s, config, updates, key);
  }

  lemma TextAfterWrite(s: Sources, config: Config, updates: Settings, key: string)
    requires Coherent(s, config) && PauseKey(s, key)
    ensures TextOf(Write(s, config, updates).running, key) ==
      if key in s.locked then TextOf(config.running, key)
      else if key in updates then updates[key]
      else TextOf(Base(s, config), key)
  {
  }

  // ----- which lists a write leaves alone

  /** The list outlasts a write of other keys: it is locked, or it is what such a write starts from. */
  ghost predicate Lasting(s: Sources, config: Config, key: string) {
    key in s.locked || Refs(Base(s, config), key) == Refs(config.running, key)
  }

  /** A list that is not written stays if and only if it is lasting. */
  lemma OtherListStays(s: Sources, config: Config, updates: Settings, key: string)
    requires Coherent(s, config) && PauseKey(s, key) && key !in updates
    ensures Refs(Write(s, config, updates).running, key) == Refs(config.running, key) <==> Lasting(s, config, key)
  {
    RefsAfterWrite(s, config, updates, key);
  }

  /** A list outside the managed file is lasting if and only if it is locked, or the file has something
      in it and the list is empty, or the file is empty and the list is the one of the repo `.env`. */
  lemma WhatLasts(s: Sources, config: Config, key: string)
    requires Coherent(s, config) && PauseKey(s, key)
    ensures key in config.managed ==> Lasting(s, config, key)
    ensures key !in config.managed ==> (Lasting(s, config, key) <==>
      || key in s.locked
      || Refs(config.running, key) == if Unwritten(config) then Refs(s.repo, key) else [])
  {
    assert ParseRefs("") == [] by { NothingPaused(); }
    assert key in config.managed && key !in s.locked ==> Base(s, config) == config.managed;
  }

  lemma NothingPaused()
    ensures ParseRefs("") == []
  {
    assert Split("", ',') == [""] && Strip("") == "";
  }

  /** After a write every list is lasting, unless that write emptied the managed file. */
  lemma SettledByWrite(s: Sources, config: Config, updates: Settings, key: string)
    requires Coherent(s, config) && PauseKey(s, key)
    ensures var now := Write(s, config, updates); !Unwritten(now) ==> Lasting(s, now, key)
  {
    var now := Write(s, config, updates);
    WrittenIsCoherent(s, config, updates);
    WhatLasts(s, now, key);
    NothingPaused();
  }

  /** The list is lasting, and the repo `.env` cannot come back over it. */
  ghost predicate Pinned(s: Sources, config: Config, key: string) {
    Lasting(s, config, key) && (key in s.repo ==> key in config.managed)
  }

  /** A write of a list pins it, and a pinned list stays pinned. */
  lemma StaysPinned(s: Sources, config: Config, updates: Settings, key: string)
    requires Coherent(s, config) && PauseKey(s, key) && key !in s.locked
    requires key in updates || Pinned(s, config, key)
    ensures Pinned(s, Write(s, config, updates), key)
  {
    var now := Write(s, config, updates);
    RefsAfterWrite(s, config, updates, key);
    WrittenIsCoherent(s, config, updates);
    WhatLasts(s, now, key);
    NothingPaused();
    if key in config.managed {
      assert !Unwritten(config);
    }
    PinnedTarget(s, config, updates, key);
  }

  lemma PinnedTarget(s: Sources, config: Config, updates: Settings, key: string)
    requires PauseKey(s, key) && key !in s.locked
    requires key in updates || (key in s.repo ==> key in config.managed)
    ensures var target := Target(s, config, updates);
      && (key in s.repo ==> key in target)
      && (key !in target ==> TextOf(Write(s, config, updates).running, key) == "")
  {
    assert key in config.managed ==> Base(s, config) == config.managed;
  }

  /** A list that only the repo `.env` has, beside a managed file with anything in it, is empty after
      any accepted write that is not of that list. */
  lemma RepoListIsDropped(
    s: Sources, managed: Settings, others: set<string>, updates: Settings, key: string)
    requires PauseKey(s, key) && key !in managed && key !in s.locked && key !in updates
    requires managed != map[] || others != {}
    ensures key in s.repo ==> Refs(Started(s, managed, others).running, key) == Refs(s.repo, key)
    ensures Refs(Write(s, Started(s, managed, others), updates).running, key) == []
  {
    StartedIsCoherent(s, managed, others);
    RefsAfterWrite(s, Started(s, managed, others), updates, key);
    NothingPaused();
  }

  /** A paused ref stays paused over a write, and its list is lasting after it, if the list is locked,
      or the write pauses it, or the list is not written and lasting. */
  lemma StaysPaused(s: Sources, config: Config, updates: Settings, key: string, ref: string)
    requires Coherent(s, config) && PauseKey(s, key)
    requires if key in s.locked then ref in Refs(config.running, key)
      else if key in updates then ref in ParseRefs(updates[key])
      else Lasting(s, config, key) && ref in Refs(config.running, key)
    ensures var now := Write(s, config, updates); ref in Refs(now.running, key) && Lasting(s, now, key)
  {
    var now := Write(s, config, updates);
    RefsAfterWrite(s, config, updates, key);
    WrittenIsCoherent(s, config, updates);
    NothingPaused();
    if key !in s.locked {
      assert TextOf(Target(s, config, updates), key) != "" by { TargetHas(s, config, updates, key, ref); }
      WhatLasts(s, now, key);
    }
  }

  lemma TargetHas(s: Sources, config: Config, updates: Settings, key: string, ref: string)
    requires PauseKey(s, key) && key !in s.locked
    requires ref in if key in updates then ParseRefs(updates[key]) else Refs(Base(s, config), key)
    ensures TextOf(Target(s, config, updates), key) != ""
  {
    NothingPaused();
  }

  /** What a write makes of the entry of a key it is not of. */
  lemma EntryStays(s: Sources, config: Config, updates: Settings, key: string)
    requires key !in updates
    ensures var base, now := Base(s, config), Write(s, config, updates);
      && (key in base <==> key in now.managed)
      && (key in base ==> now.managed[key] == base[key] && !Unwritten(now))
  {
  }

  /** A write without blanks does not empty the managed file. */
  lemma StillAFile(s: Sources, config: Config, updates: Settings)
    requires config.managed != map[] && forall k | k in updates :: updates[k] != ""
    ensures !Unwritten(Write(s, config, updates))
  {
    var k :| k in config.managed;
    assert k in Target(s, config, updates);
  }

  // ----- one list edited

  function WithPause(refs: seq<string>, ref: string): seq<string> {
    if ref in refs then refs else refs + [ref]
  }

  function Keep(refs: seq<string>, lifted: set<string>): seq<string> {
    if refs == [] then []
    else Keep(refs[..|refs| - 1], lifted) + if refs[|refs| - 1] in lifted then [] else [refs[|refs| - 1]]
  }

  lemma {:induction false} KeepFacts(refs: seq<string>, lifted: set<string>)
    ensures forall r :: r in Keep(refs, lifted) <==> r in refs && r !in lifted
    ensures Distinct(refs) ==> Distinct(Keep(refs, lifted))
    ensures CleanFields(refs) ==> CleanFields(Keep(refs, lifted))
  {
    if refs != [] {
      var front := refs[..|refs| - 1];
      KeepFacts(front, lifted);
      assert refs == front + [refs[|refs| - 1]];
      if Distinct(refs) {
        assert refs[|refs| - 1] !in front;
      }
    }
  }

  lemma {:induction false} KeepAppend(a: seq<string>, b: seq<string>, lifted: set<string>)
    ensures Keep(a + b, lifted) == Keep(a, lifted) + Keep(b, lifted)
  {
    if b == [] {
      assert a + b == a;
    } else {
      assert (a + b)[..|a + b| - 1] == a + b[..|b| - 1];
      KeepAppend(a, b[..|b| - 1], lifted);
    }
  }

  lemma {:induction false} KeepAll(refs: seq<string>, lifted: set<string>)
    requires forall r | r in refs :: r !in lifted
    ensures Keep(refs, lifted) == refs
  {
    if refs != [] {
      KeepAll(refs[..|refs| - 1], lifted);
      assert refs == refs[..|refs| - 1] + [refs[|refs| - 1]];
    }
  }

  lemma {:induction false} KeepsNothing(refs: seq<string>, lifted: set<string>)
    ensures Keep(refs, lifted) == [] <==> forall r | r in refs :: r in lifted
  {
    KeepFacts(refs, lifted);
    if Keep(refs, lifted) != [] {
      assert Keep(refs, lifted)[0] in Keep(refs, lifted);
    }
  }

  /** The list as it was, then whatever the added refs parse to, nothing twice. */
  ghost predicate Gains(before: seq<string>, added: seq<string>, after: seq<string>) {
    && before <= after
    && Distinct(after) && CleanFields(after)
    && forall r :: r in after <==> r in before || r in ConcatFields(added)
  }

  lemma ParsedTogether(before: seq<string>, added: seq<string>)
    requires CleanFields(before) && Distinct(before)
    ensures Gains(before, added, ParseRefs(Format(before + added)))
  {
    FieldsOfFormat(before + added);
    ConcatFieldsAppend(before, added);
    ConcatFieldsOfClean(before);
    DedupPrefix(before, ConcatFields(added));
    DedupFacts(before + ConcatFields(added));
    ParseRefsClean(Format(before + added));
  }

  /** What a list with one more ref reads back as: a ref with commas counts as its pieces. */
  lemma WithPauseReadsBack(settings: Settings, key: string, ref: string)
    ensures forall r :: r in ParseRefs(Format(WithPause(Refs(settings, key), ref))) <==>
      r in Refs(settings, key) || r in Fields(ref)
  {
    var current := Refs(settings, key);
    ParseRefsClean(TextOf(settings, key));
    if ref in current {
      ParseRefsRoundTrip(current);
      FieldsOfClean(ref);
    } else {
      ParsedTogether(current, [ref]);
      assert ConcatFields([ref]) == Fields(ref) + ConcatFields([]);
    }
  }

  lemma KeepReadsBack(settings: Settings, key: string, lifted: set<string>)
    ensures ParseRefs(Format(Keep(Refs(settings, key), lifted))) == Keep(Refs(settings, key), lifted)
    ensures lifted == {} ==> Keep(Refs(settings, key), lifted) == Refs(settings, key)
  {
    var current := Refs(settings, key);
    ParseRefsClean(TextOf(settings, key));
    KeepFacts(current, lifted);
    ParseRefsRoundTrip(Keep(current, lifted));
    if lifted == {} {
      KeepAll(current, lifted);
    }
  }
}
