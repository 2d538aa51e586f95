module JsonValues {
  import opened Options
  import opened Text

  /** A JSON value; a dictionary keeps its entries in order. `Scalar` is a number, a boolean or null. */
  datatype Json =
    | Str(text: string)
    | List(items: seq<Json>)
    | Dict(entries: seq<(string, Json)>)
    | Scalar(literal: string)

  /** `d.get(key)`: of a repeated key the last value counts. */
  function Get(entries: seq<(string, Json)>, key: string): Option<Json> {
    if entries == [] then None
    else if entries[|entries| - 1].0 == key then Some(entries[|entries| - 1].1)
    else Get(entries[..|entries| - 1], key)
  }

  /** What `json.loads` keeps of an object: a repeated key stays in its first place with its last
      value. */
  function Merged(entries: seq<(string, Json)>): seq<(string, Json)> {
    if entries == [] then [] else Put(Merged(entries[..|entries| - 1]), entries[|entries| - 1])
  }

  function Put(entries: seq<(string, Json)>, entry: (string, Json)): seq<(string, Json)> {
    if entries == [] then [entry]
    else if entries[0].0 == entry.0 then [entry] + entries[1..]
    else [entries[0]] + Put(entries[1..], entry)
  }

  ghost predicate DistinctNames(entries: seq<(string, Json)>) {
    forall i, j | 0 <= i < j < |entries| :: entries[i].0 != entries[j].0
  }

  ghost predicate Named(entries: seq<(string, Json)>, name: string) {
    exists i :: 0 <= i < |entries| && entries[i].0 == name
  }

  function NamesOf(entries: seq<(string, Json)>): seq<string> {
    seq(|entries|, i requires 0 <= i < |entries| => entries[i].0)
  }

  lemma {:induction false} PutMeaning(entries: seq<(string, Json)>, entry: (string, Json))
    requires DistinctNames(entries)
    ensures |Put(entries, entry)| == |entries| + if Named(entries, entry.0) then 0 else 1
    ensures forall k | 0 <= k < |entries| ::
      Put(entries, entry)[k] == if entries[k].0 == entry.0 then entry else entries[k]
    ensures !Named(entries, entry.0) ==> Put(entries, entry)[|entries|] == entry
  {
    if entries != [] && entries[0].0 != entry.0 {
      PutMeaning(entries[1..], entry);
      assert Named(entries, entry.0) <==> Named(entries[1..], entry.0) by { NamedLater(entries, entry.0); }
    }
  }

  lemma NamedLater(entries: seq<(string, Json)>, name: string)
    requires entries != [] && entries[0].0 != name
    ensures Named(entries, name) <==> Named(entries[1..], name)
  {
    if i :| 0 <= i < |entries| && entries[i].0 == name {
      assert entries[1..][i - 1].0 == name;
    }
  }

  /** Of every name the first place counts, and the last value. */
  lemma {:induction false} MergedMeaning(entries: seq<(string, Json)>)
    ensures DistinctNames(Merged(entries))
    ensures NamesOf(Merged(entries)) == Dedup(NamesOf(entries))
    ensures forall k | 0 <= k < |Merged(entries)| ::
      Get(entries, Merged(entries)[k].0) == Some(Merged(entries)[k].1)
  {
    if entries != [] {
      var front, last := entries[..|entries| - 1], entries[|entries| - 1];
      MergedMeaning(front);
      PutMeaning(Merged(front), last);
      PutNames(Merged(front), last);
      PutKeepsDistinct(Merged(front), last);
      assert NamesOf(entries)[..|entries| - 1] == NamesOf(front);
    }
  }

  lemma NamedMeaning(entries: seq<(string, Json)>, name: string)
    ensures Named(entries, name) <==> name in NamesOf(entries)
  {
    if Named(entries, name) {
      var i :| 0 <= i < |entries| && entries[i].0 == name;
      assert NamesOf(entries)[i] == name;
    }
  }

  lemma PutKeepsDistinct(entries: seq<(string, Json)>, entry: (string, Json))
    requires DistinctNames(entries)
    ensures DistinctNames(Put(entries, entry))
  {
    PutMeaning(entries, entry);
  }

  lemma PutNames(entries: seq<(string, Json)>, entry: (string, Json))
    requires DistinctNames(entries)
    ensures NamesOf(Put(entries, entry)) ==
      if entry.0 in NamesOf(entries) then NamesOf(entries) else NamesOf(entries) + [entry.0]
  {
    PutMeaning(entries, entry);
    NamedMeaning(entries, entry.0);
    var put := Put(entries, entry);
    assert forall k | 0 <= k < |entries| :: put[k].0 == entries[k].0;
  }

  lemma {:induction false} PutNew(entries: seq<(string, Json)>, entry: (string, Json))
    requires forall i | 0 <= i < |entries| :: entries[i].0 != entry.0
    ensures Put(entries, entry) == entries + [entry]
  {
    if entries != [] {
      PutNew(entries[1..], entry);
      assert entries == [entries[0]] + entries[1..];
    }
  }

  lemma {:induction false} MergedDistinct(entries: seq<(string, Json)>)
    requires DistinctNames(entries)
    ensures Merged(entries) == entries
  {
    if entries != [] {
      var front, last := entries[..|entries| - 1], entries[|entries| - 1];
      MergedDistinct(front);
      PutNew(front, last);
      assert entries == front + [last];
    }
  }
}
