/** Python string operations the modelled code is written with. */
module Text {
  import opened Options

  /** `str.isspace` on one character; the class `\s` of a Python regex is the same set. */
  predicate IsSpace(c: char) {
    || '\U{0009}' <= c <= '\U{000D}'
    || '\U{001C}' <= c <= '\U{0020}'
    || c == '\U{0085}' || c == '\U{00A0}' || c == '\U{1680}'
    || '\U{2000}' <= c <= '\U{200A}'
    || c == '\U{2028}' || c == '\U{2029}' || c == '\U{202F}' || c == '\U{205F}' || c == '\U{3000}'
  }

  lemma SpacesAre(c: char)
    ensures IsSpace(c) <==> c in {
      '\t', '\n', '\U{000B}', '\U{000C}', '\r', '\U{001C}', '\U{001D}', '\U{001E}', '\U{001F}', ' ',
      '\U{0085}', '\U{00A0}', '\U{1680}', '\U{2000}', '\U{2001}', '\U{2002}', '\U{2003}', '\U{2004}',
      '\U{2005}', '\U{2006}', '\U{2007}', '\U{2008}', '\U{2009}', '\U{200A}', '\U{2028}', '\U{2029}',
      '\U{202F}', '\U{205F}', '\U{3000}'}
  {
  }

  // ----- strip

  function TrimLeft(p: char -> bool, s: string): string {
    if s == "" then "" else if p(s[0]) then TrimLeft(p, s[1..]) else s
  }

  function TrimRight(p: char -> bool, s: string): string {
    if s == "" then "" else if p(s[|s| - 1]) then TrimRight(p, s[..|s| - 1]) else s
  }

  /** `s.strip(chars)`, the character set given as a predicate. */
  function Trim(p: char -> bool, s: string): string {
    TrimRight(p, TrimLeft(p, s))
  }

  /** `s.strip()`. */
  function Strip(s: string): string {
    Trim(IsSpace, s)
  }

  /** Neither end of `s` is in the stripped set. */
  ghost predicate Tight(p: char -> bool, s: string) {
    s != "" ==> !p(s[0]) && !p(s[|s| - 1])
  }

  ghost predicate All(p: char -> bool, s: string) {
    forall i | 0 <= i < |s| :: p(s[i])
  }

  lemma {:induction false} TrimRightShape(p: char -> bool, s: string)
    ensures TrimRight(p, s) <= s
    ensures TrimRight(p, s) != "" ==> !p(TrimRight(p, s)[|TrimRight(p, s)| - 1])
  {
    if s != "" && p(s[|s| - 1]) {
      TrimRightShape(p, s[..|s| - 1]);
    }
  }

  lemma {:induction false} TrimLeftShape(p: char -> bool, s: string)
    ensures TrimLeft(p, s) != "" ==> !p(TrimLeft(p, s)[0])
    ensures forall c | c in TrimLeft(p, s) :: c in s
  {
    if s != "" && p(s[0]) {
      TrimLeftShape(p, s[1..]);
    }
  }

  /** A stripped string has no strippable end, and only characters of the original. */
  lemma TrimTight(p: char -> bool, s: string)
    ensures Tight(p, Trim(p, s))
    ensures forall c | c in Trim(p, s) :: c in s
  {
    TrimLeftShape(p, s);
    TrimRightShape(p, TrimLeft(p, s));
  }

  lemma TrimOfTight(p: char -> bool, s: string)
    requires Tight(p, s)
    ensures Trim(p, s) == s
  {
  }

  lemma {:induction false} TrimLeftDrops(p: char -> bool, a: string, s: string)
    requires All(p, a)
    ensures TrimLeft(p, a + s) == TrimLeft(p, s)
  {
    if a == "" {
      assert a + s == s;
    } else {
      assert (a + s)[1..] == a[1..] + s;
      TrimLeftDrops(p, a[1..], s);
    }
  }

  lemma {:induction false} TrimRightDrops(p: char -> bool, s: string, b: string)
    requires All(p, b)
    ensures TrimRight(p, s + b) == TrimRight(p, s)
  {
    if b == "" {
      assert s + b == s;
    } else {
      assert (s + b)[..|s + b| - 1] == s + b[..|b| - 1];
      TrimRightDrops(p, s, b[..|b| - 1]);
    }
  }

  /** Strippable padding on both sides makes no difference. */
  lemma TrimPadding(p: char -> bool, a: string, s: string, b: string)
    requires All(p, a) && All(p, b)
    ensures Trim(p, a + s + b) == Trim(p, s)
  {
    assert a + s + b == a + (s + b);
    TrimLeftDrops(p, a, s + b);
    TrimLeftAppend(p, s, b);
    if TrimLeft(p, s + b) == TrimLeft(p, s) + b {
      TrimRightDrops(p, TrimLeft(p, s), b);
    } else {
      assert TrimRight(p, "" + "") == "";
    }
  }

  lemma {:induction false} TrimLeftAppend(p: char -> bool, s: string, b: string)
    requires All(p, b)
    ensures || TrimLeft(p, s + b) == TrimLeft(p, s) + b
            || (TrimLeft(p, s + b) == "" && TrimLeft(p, s) == "")
  {
    if s == "" {
      assert s + b == b + "";
      TrimLeftDrops(p, b, "");
      assert b + "" == b;
    } else if p(s[0]) {
      assert (s + b)[1..] == s[1..] + b;
      TrimLeftAppend(p, s[1..], b);
    }
  }

  /** Trimming leaves nothing exactly when there is nothing but what is trimmed. */
  lemma TrimsToNothing(p: char -> bool, s: string)
    ensures Trim(p, s) == "" <==> All(p, s)
  {
    if All(p, s) {
      TrimLeftDrops(p, s, "");
      assert s + "" == s;
    } else {
      LeftIsFull(p, s);
      RightIsFull(p, TrimLeft(p, s));
    }
  }

  lemma {:induction false} LeftIsFull(p: char -> bool, s: string)
    requires !All(p, s)
    ensures !All(p, TrimLeft(p, s))
  {
    if p(s[0]) {
      assert s == [s[0]] + s[1..];
      LeftIsFull(p, s[1..]);
    }
  }

  lemma {:induction false} RightIsFull(p: char -> bool, s: string)
    requires !All(p, s)
    ensures TrimRight(p, s) != ""
  {
    if p(s[|s| - 1]) {
      assert s == s[..|s| - 1] + [s[|s| - 1]];
      RightIsFull(p, s[..|s| - 1]);
    }
  }

  /** The length of the longest start of `t` without a character in `stop`. */
  function Span(stop: char -> bool, t: string): (n: nat)
    ensures n <= |t| && (n < |t| ==> stop(t[n]))
  {
    if t != "" && !stop(t[0]) then 1 + Span(stop, t[1..]) else 0
  }

  // ----- the first slash

  predicate Slash(c: char) {
    c == '/'
  }

  /** `s.partition("/")`: what precedes the first slash and what follows it, if there is one. */
  function Partition(s: string): Option<(string, string)> {
    var n := Span(Slash, s);
    if n < |s| then Some((s[..n], s[n + 1..])) else None
  }

  /** `s.split("/", 1)[0]` */
  function BeforeSlash(s: string): string {
    s[..Span(Slash, s)]
  }

  lemma PartitionAt(a: string, b: string)
    requires '/' !in a
    ensures Partition(a + "/" + b) == Some((a, b))
  {
    SpanAt(a, b);
    var s := a + "/" + b;
    assert s[..|a|] == a && s[|a| + 1..] == b;
  }

  lemma {:induction false} SpanAt(a: string, b: string)
    requires '/' !in a
    ensures Span(Slash, a + "/" + b) == |a|
  {
    if a != "" {
      assert (a + "/" + b)[1..] == a[1..] + "/" + b;
      SpanAt(a[1..], b);
    }
  }

  lemma PartitionJoins(s: string)
    ensures Partition(s).Some? ==> Partition(s).value.0 + "/" + Partition(s).value.1 == s
    ensures Partition(s).None? <==> '/' !in s
  {
    SpanFinds(s);
  }

  lemma {:induction false} SpanFinds(s: string)
    ensures Span(Slash, s) == |s| <==> '/' !in s
  {
    if s != "" {
      SpanFinds(s[1..]);
      assert s == [s[0]] + s[1..];
    }
  }

  lemma BeforeSlashPrefix(a: string, b: string)
    requires '/' in a
    ensures BeforeSlash(a + b) == BeforeSlash(a)
  {
    SpanFinds(a);
    SpanOfPrefix(Slash, a, b);
    var n := Span(Slash, a);
    assert (a + b)[..n] == a[..n];
  }

  lemma {:induction false} SpanOfPrefix(stop: char -> bool, a: string, b: string)
    requires Span(stop, a) < |a|
    ensures Span(stop, a + b) == Span(stop, a)
  {
    if !stop(a[0]) {
      assert (a + b)[1..] == a[1..] + b;
      SpanOfPrefix(stop, a[1..], b);
    }
  }

  // ----- split and join on one character

  function Split(s: string, c: char): (pieces: seq<string>)
    ensures |pieces| >= 1
  {
    if s == "" then [""]
    else
      var rest := Split(s[1..], c);
      if s[0] == c then [""] + rest else [[s[0]] + rest[0]] + rest[1..]
  }

  function Join(xs: seq<string>, c: char): string {
    if xs == [] then ""
    else if |xs| == 1 then xs[0]
    else xs[0] + [c] + Join(xs[1..], c)
  }

  lemma {:induction false} SplitAppend(a: string, c: char, b: string)
    ensures Split(a + [c] + b, c) == Split(a, c) + Split(b, c)
  {
    if a == "" {
      assert a + [c] + b == [c] + b && ([c] + b)[1..] == b;
    } else {
      SplitAppend(a[1..], c, b);
      assert a == [a[0]] + a[1..];
      assert a + [c] + b == [a[0]] + (a[1..] + [c] + b);
      SplitCons(a[0], a[1..], c);
      SplitCons(a[0], a[1..] + [c] + b, c);
      AddCharAppend(a[0], c, Split(a[1..], c), Split(b, c));
    }
  }

  /** The pieces when one more character comes first. */
  function AddChar(x: char, c: char, pieces: seq<string>): seq<string>
    requires pieces != []
  {
    if x == c then [""] + pieces else [[x] + pieces[0]] + pieces[1..]
  }

  lemma SplitCons(x: char, s: string, c: char)
    ensures Split([x] + s, c) == AddChar(x, c, Split(s, c))
  {
    assert ([x] + s)[1..] == s;
  }

  lemma AddCharAppend(x: char, c: char, a: seq<string>, b: seq<string>)
    requires a != []
    ensures AddChar(x, c, a + b) == AddChar(x, c, a) + b
  {
  }

  lemma {:induction false} SplitPlain(s: string, c: char)
    requires c !in s
    ensures Split(s, c) == [s]
  {
    if s != "" {
      assert c !in s[1..];
      SplitPlain(s[1..], c);
      assert [s[0]] + s[1..] == s;
    }
  }

  /** No piece holds the separator, and every character of a piece comes from the string. */
  lemma {:induction false} SplitPieces(s: string, c: char)
    ensures forall x | x in Split(s, c) :: c !in x
    ensures forall x, d | x in Split(s, c) && d in x :: d in s
  {
    if s != "" {
      SplitPieces(s[1..], c);
      var rest := Split(s[1..], c);
      assert rest[0] in rest;
      forall x | x in Split(s, c)
        ensures c !in x && forall d | d in x :: d in s
      {
        if s[0] != c && x == [s[0]] + rest[0] {
        } else if x == "" {
        } else {
          assert x in rest;
        }
      }
    }
  }

  /** The number of pieces is one more than the number of separators. */
  lemma {:induction false} SplitCount(s: string, c: char)
    ensures |Split(s, c)| == 1 + multiset(s)[c]
  {
    if s != "" {
      SplitCount(s[1..], c);
      assert s == [s[0]] + s[1..];
    }
  }

  /** Joining pieces free of the separator and splitting again gives the pieces back. */
  lemma {:induction false} SplitJoin(xs: seq<string>, c: char)
    requires xs != []
    requires forall x | x in xs :: c !in x
    ensures Split(Join(xs, c), c) == xs
  {
    SplitPlain(xs[0], c);
    if |xs| > 1 {
      SplitAppend(xs[0], c, Join(xs[1..], c));
      SplitJoin(xs[1..], c);
      assert [xs[0]] + xs[1..] == xs;
    }
  }

  // ----- comma lists

  /** A list entry as the parsers return it: not blank, already stripped, no comma. */
  ghost predicate CleanField(x: string) {
    x != "" && Tight(IsSpace, x) && ',' !in x
  }

  ghost predicate CleanFields(xs: seq<string>) {
    forall i | 0 <= i < |xs| :: CleanField(xs[i])
  }

  function KeepFields(pieces: seq<string>): seq<string> {
    if pieces == [] then []
    else
      var x := Strip(pieces[0]);
      (if x == "" then [] else [x]) + KeepFields(pieces[1..])
  }

  /** Split on commas, strip every piece, drop the blank ones. */
  function Fields(s: string): seq<string> {
    KeepFields(Split(s, ','))
  }

  function Format(xs: seq<string>): string {
    Join(xs, ',')
  }

  lemma {:induction false} KeepFieldsAppend(a: seq<string>, b: seq<string>)
    ensures KeepFields(a + b) == KeepFields(a) + KeepFields(b)
  {
    if a == [] {
      assert a + b == b;
    } else {
      assert (a + b)[1..] == a[1..] + b;
      KeepFieldsAppend(a[1..], b);
    }
  }

  lemma {:induction false} KeepFieldsClean(pieces: seq<string>)
    requires forall x | x in pieces :: ',' !in x
    ensures CleanFields(KeepFields(pieces))
  {
    if pieces != [] {
      TrimTight(IsSpace, pieces[0]);
      assert pieces[0] in pieces;
      assert forall x | x in pieces[1..] :: x in pieces;
      KeepFieldsClean(pieces[1..]);
    }
  }

  lemma FieldsClean(s: string)
    ensures CleanFields(Fields(s))
  {
    SplitPieces(s, ',');
    KeepFieldsClean(Split(s, ','));
  }

  lemma FieldsOfClean(x: string)
    requires CleanField(x)
    ensures Fields(x) == [x]
  {
    SplitPlain(x, ',');
    TrimOfTight(IsSpace, x);
    assert KeepFields([x]) == [x];
  }

  function ConcatFields(xs: seq<string>): seq<string> {
    if xs == [] then [] else Fields(xs[0]) + ConcatFields(xs[1..])
  }

  lemma {:induction false} ConcatFieldsAppend(a: seq<string>, b: seq<string>)
    ensures ConcatFields(a + b) == ConcatFields(a) + ConcatFields(b)
  {
    if a == [] {
      assert a + b == b;
    } else {
      assert (a + b)[1..] == a[1..] + b;
      ConcatFieldsAppend(a[1..], b);
    }
  }

  /** Formatting entries and parsing the text again parses every entry in place. */
  lemma {:induction false} FieldsOfFormat(xs: seq<string>)
    ensures Fields(Format(xs)) == ConcatFields(xs)
  {
    if xs == [] {
      assert Split("", ',') == [""];
      assert Strip("") == "";
    } else if |xs| == 1 {
      assert ConcatFields(xs[1..]) == [];
    } else {
      SplitAppend(xs[0], ',', Format(xs[1..]));
      KeepFieldsAppend(Split(xs[0], ','), Split(Format(xs[1..]), ','));
      FieldsOfFormat(xs[1..]);
    }
  }

  lemma {:induction false} ConcatFieldsOfClean(xs: seq<string>)
    requires CleanFields(xs)
    ensures ConcatFields(xs) == xs
  {
    if xs != [] {
      FieldsOfClean(xs[0]);
      assert CleanFields(xs[1..]) by {
        forall i | 0 <= i < |xs[1..]| ensures CleanField(xs[1..][i]) { assert xs[1..][i] == xs[i + 1]; }
      }
      ConcatFieldsOfClean(xs[1..]);
    }
  }

  /** Clean entries survive the trip through their comma-separated text. */
  lemma FieldsRoundTrip(xs: seq<string>)
    requires CleanFields(xs)
    ensures Fields(Format(xs)) == xs
  {
    FieldsOfFormat(xs);
    ConcatFieldsOfClean(xs);
  }

  // ----- stable deduplication

  ghost predicate Distinct<T>(xs: seq<T>) {
    forall i, j | 0 <= i < j < |xs| :: xs[i] != xs[j]
  }

  /** Keep the first occurrence of every element, in order. */
  function Dedup<T(==)>(xs: seq<T>): (r: seq<T>)
  {
    if xs == [] then []
    else
      var d := Dedup(xs[..|xs| - 1]);
      if xs[|xs| - 1] in d then d else d + [xs[|xs| - 1]]
  }

  lemma {:induction false} DedupFacts<T>(xs: seq<T>)
    ensures Distinct(Dedup(xs))
    ensures forall x :: x in Dedup(xs) <==> x in xs
  {
    if xs != [] {
      DedupFacts(xs[..|xs| - 1]);
      assert xs == xs[..|xs| - 1] + [xs[|xs| - 1]];
    }
  }

  lemma {:induction false} DedupOfDistinct<T>(xs: seq<T>)
    requires Distinct(xs)
    ensures Dedup(xs) == xs
  {
    if xs != [] {
      var front := xs[..|xs| - 1];
      DedupOfDistinct(front);
      assert xs == front + [xs[|xs| - 1]];
      assert xs[|xs| - 1] !in front;
    }
  }

  /** A distinct prefix stays where it is; only unseen elements of the rest are added. */
  lemma {:induction false} DedupPrefix<T>(a: seq<T>, b: seq<T>)
    requires Distinct(a)
    ensures a <= Dedup(a + b)
  {
    if b == [] {
      assert a + b == a;
      DedupOfDistinct(a);
    } else {
      assert (a + b)[..|a + b| - 1] == a + b[..|b| - 1];
      DedupPrefix(a, b[..|b| - 1]);
    }
  }

  /** `parse_model_ref_list`: the entries of a comma list, duplicates dropped. */
  function ParseRefs(s: string): seq<string> {
    Dedup(Fields(s))
  }

  lemma ParseRefsClean(s: string)
    ensures CleanFields(ParseRefs(s)) && Distinct(ParseRefs(s))
  {
    FieldsClean(s);
    DedupFacts(Fields(s));
    forall i | 0 <= i < |ParseRefs(s)| ensures CleanField(ParseRefs(s)[i]) {
      assert ParseRefs(s)[i] in Fields(s);
    }
  }

  lemma ParseRefsRoundTrip(xs: seq<string>)
    requires CleanFields(xs) && Distinct(xs)
    ensures ParseRefs(Format(xs)) == xs
  {
    FieldsRoundTrip(xs);
    DedupOfDistinct(xs);
  }

  // ----- replacement

  predicate Contains(s: string, p: string) {
    exists i | 0 <= i <= |s| :: p <= s[i..]
  }

  /** `re.sub` with a matcher that gives the length of the match at the start, 0 for none. */
  function SubAll(match_: string -> nat, rep: string, s: string): string
    requires forall t :: match_(t) <= |t|
    decreases |s|
  {
    if s == "" then ""
    else
      var n := match_(s);
      if n > 0 then rep + SubAll(match_, rep, s[n..])
      else [s[0]] + SubAll(match_, rep, s[1..])
  }

  /** The match of a literal pattern. */
  function MatchLiteral(p: string): (m: string -> nat)
    ensures forall t :: m(t) <= |t|
  {
    t => if p <= t then |p| else 0
  }

  /** `s.replace(p, rep)` for a non-empty pattern: leftmost, non-overlapping. */
  function Replace(s: string, p: string, rep: string): string {
    SubAll(MatchLiteral(p), rep, s)
  }

  /** Where nothing matches, `re.sub` changes nothing. */
  lemma {:induction false} SubNoMatch(match_: string -> nat, rep: string, t: string)
    requires forall x :: match_(x) <= |x|
    requires forall i | 0 <= i < |t| :: match_(t[i..]) == 0
    ensures SubAll(match_, rep, t) == t
  {
    if t != "" {
      assert t[0..] == t;
      assert forall i | 0 <= i < |t[1..]| :: t[1..][i..] == t[i + 1..];
      SubNoMatch(match_, rep, t[1..]);
    }
  }

  /** An occurrence that avoids the end characters of an inserted text lies in the text
      before it, in the inserted text, or after it. */
  lemma OccurrenceSplits(rep: string, b: string, s: string, i: nat)
    requires rep != "" && rep[|rep| - 1] !in s
    requires i <= |rep + b| && s <= (rep + b)[i..]
    ensures (i <= |rep| && s <= rep[i..]) || (i >= |rep| && s <= b[i - |rep|..])
  {
    StraddlingReadsTheEnd(rep, b, s, i);
    if i + |s| <= |rep| {
      OccursBefore(rep, b, s, i);
    } else {
      assert (rep + b)[i..] == b[i - |rep|..];
    }
  }

  lemma OccursBefore(a: string, b: string, s: string, i: nat)
    requires i + |s| <= |a| && s <= (a + b)[i..]
    ensures s <= a[i..]
  {
    assert (a + b)[i..][..|s|] == a[i..][..|s|];
  }

  lemma StraddlingReadsTheEnd(rep: string, b: string, s: string, i: nat)
    requires i <= |rep + b| && s <= (rep + b)[i..]
    ensures i < |rep| < i + |s| ==> rep[|rep| - 1] in s
  {
    if i < |rep| < i + |s| {
      assert (rep + b)[i..][|rep| - 1 - i] == rep[|rep| - 1];
      assert s[|rep| - 1 - i] in s;
    }
  }

  /** A text without the first character of the replacement that starts the output of `re.sub`
      starts the input, and no match does. */
  lemma {:induction false} SubStart(match_: string -> nat, rep: string, t: string, s: string)
    requires forall x :: match_(x) <= |x|
    requires rep != "" && rep[0] !in s
    requires s <= SubAll(match_, rep, t)
    ensures s <= t
    ensures s != "" ==> match_(t) == 0
  {
    if s != "" {
      assert s[0] == SubAll(match_, rep, t)[0] && s[0] in s;
      assert match_(t) == 0;
      assert s[1..] <= SubAll(match_, rep, t[1..]);
      SubStart(match_, rep, t[1..], s[1..]);
      assert [s[0]] + s[1..] == s && [t[0]] + t[1..] == t;
    }
  }

  /** Whatever occurs in the output of `re.sub`, apart from what the replacement brings in,
      occurred in the input at a place where nothing matched. */
  lemma {:induction false} SubIntroducesNothing(match_: string -> nat, rep: string, t: string, s: string)
    requires forall x :: match_(x) <= |x|
    requires rep != "" && rep[0] !in s && rep[|rep| - 1] !in s
    requires s != "" && !Contains(rep, s)
    requires Contains(SubAll(match_, rep, t), s)
    ensures exists i :: 0 <= i < |t| && s <= t[i..] && match_(t[i..]) == 0
    decreases |t|
  {
    var out := SubAll(match_, rep, t);
    var at :| 0 <= at <= |out| && s <= out[at..];
    if at == 0 {
      assert out[0..] == out;
      SubStart(match_, rep, t, s);
      assert t[0..] == t;
    } else {
      var n := match_(t);
      var skip := if n > 0 then n else 1;
      var rest := SubAll(match_, rep, t[skip..]);
      if n > 0 {
        OccurrenceSplits(rep, rest, s, at);
        assert s <= rest[at - |rep|..];
      } else {
        assert out[at..] == rest[at - 1..];
      }
      assert Contains(rest, s);
      SubIntroducesNothing(match_, rep, t[skip..], s);
      var i :| 0 <= i < |t[skip..]| && s <= t[skip..][i..] && match_(t[skip..][i..]) == 0;
      assert t[skip..][i..] == t[skip + i..];
    }
  }
}
