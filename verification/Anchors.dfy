/** Heading anchors of a rendered document (docs_render.py). */
module Anchors {
  import opened Options
  import opened Text

  // ----- slugs

  predicate SlugChar(c: char) {
    'a' <= c <= 'z' || '0' <= c <= '9'
  }

  lemma SlugCharsAre(c: char)
    ensures SlugChar(c) <==> c in {
      'a', 'b', 'c', 'd', 'e', 'f', 'g', 'h', 'i', 'j', 'k', 'l', 'm',
      'n', 'o', 'p', 'q', 'r', 's', 't', 'u', 'v', 'w', 'x', 'y', 'z',
      '0', '1', '2', '3', '4', '5', '6', '7', '8', '9'}
  {
  }

  predicate Dash(c: char) {
    c == '-'
  }

  /** `[^a-z0-9]+` */
  function NonSlug(t: string): (n: nat)
    ensures n <= |t|
  {
    Span(SlugChar, t)
  }

  function Dashed(t: string): string {
    SubAll(NonSlug, "-", t)
  }

  /** `_slugify`; `lower` is `str.lower`. */
  function Slugify(lower: string -> string, text: string): string {
    var slug := Trim(Dash, Dashed(lower(Strip(text))));
    if slug == "" then "section" else slug
  }

  ghost predicate SlugText(s: string) {
    && (forall i | 0 <= i < |s| :: SlugChar(s[i]) || s[i] == '-')
    && (forall i | 0 <= i < |s| - 1 :: SlugChar(s[i]) || SlugChar(s[i + 1]))
  }

  /** The normal form: not empty, only a-z and 0-9 with single dashes between them. */
  ghost predicate Normal(s: string) {
    s != "" && SlugText(s) && Tight(Dash, s)
  }

  lemma {:induction false} DashedIsSlugText(t: string)
    ensures SlugText(Dashed(t))
    ensures Dashed(t) != "" && Dashed(t)[0] == '-' ==> !SlugChar(t[0])
    decreases |t|
  {
    if t != "" {
      var n := NonSlug(t);
      DashedIsSlugText(t[if n > 0 then n else 1..]);
    }
  }

  lemma PartOfSlugText(s: string, i: nat, j: nat)
    requires i <= j <= |s| && SlugText(s)
    ensures SlugText(s[i..j])
  {
  }

  lemma TrimIsPart(p: char -> bool, s: string)
    ensures exists i, j :: 0 <= i <= j <= |s| && Trim(p, s) == s[i..j]
  {
    TrimLeftIsSuffix(p, s);
    var i :| 0 <= i <= |s| && TrimLeft(p, s) == s[i..];
    TrimRightShape(p, s[i..]);
    PrefixOfSuffix(s, i, Trim(p, s));
  }

  lemma PrefixOfSuffix(s: string, i: nat, t: string)
    requires i <= |s| && t <= s[i..]
    ensures t == s[i..i + |t|]
  {
  }

  lemma {:induction false} TrimLeftIsSuffix(p: char -> bool, s: string)
    ensures exists i :: 0 <= i <= |s| && TrimLeft(p, s) == s[i..]
  {
    if s != "" && p(s[0]) {
      TrimLeftIsSuffix(p, s[1..]);
      var i :| 0 <= i <= |s[1..]| && TrimLeft(p, s[1..]) == s[1..][i..];
      assert s[1..][i..] == s[i + 1..];
    } else {
      assert s[0..] == s;
    }
  }

  /** Every slug is in normal form, whatever the heading. */
  lemma SlugsAreNormal(lower: string -> string, text: string)
    ensures Normal(Slugify(lower, text))
  {
    var dashed := Dashed(lower(Strip(text)));
    DashedIsSlugText(lower(Strip(text)));
    TrimTight(Dash, dashed);
    TrimIsPart(Dash, dashed);
    var i, j :| 0 <= i <= j <= |dashed| && Trim(Dash, dashed) == dashed[i..j];
    PartOfSlugText(dashed, i, j);
    assert Normal("section");
  }

  /** `lower` has nothing to do on slugs. */
  ghost predicate LeavesSlugs(lower: string -> string) {
    forall s: string | SlugText(s) :: lower(s) == s
  }

  lemma {:induction false} DashedOfSlugText(s: string)
    requires SlugText(s)
    ensures Dashed(s) == s
  {
    if s != "" {
      PartOfSlugText(s, 1, |s|);
      DashedOfSlugText(s[1..]);
      assert NonSlug(s) == if SlugChar(s[0]) then 0 else 1 by {
        assert |s| > 1 && !SlugChar(s[0]) ==> Span(SlugChar, s[1..]) == 0;
      }
      assert s == [s[0]] + s[1..];
    }
  }

  /** The slugs are exactly the fixed points, so slugifying is idempotent. */
  lemma SlugFixedPoints(lower: string -> string, s: string)
    requires LeavesSlugs(lower)
    ensures Slugify(lower, s) == s <==> Normal(s)
    ensures Slugify(lower, Slugify(lower, s)) == Slugify(lower, s)
  {
    SlugsAreNormal(lower, s);
    NormalIsFixed(lower, Slugify(lower, s));
    if Normal(s) {
      NormalIsFixed(lower, s);
    }
  }

  lemma NormalIsFixed(lower: string -> string, s: string)
    requires LeavesSlugs(lower) && Normal(s)
    ensures Slugify(lower, s) == s
  {
    assert Tight(IsSpace, s);
    TrimOfTight(IsSpace, s);
    DashedOfSlugText(s);
    TrimOfTight(Dash, s);
  }

  // ----- what a slug says

  /** A maximal run of a-z and 0-9 from `i` to `j`. */
  ghost predicate RunAt(t: string, i: int, j: int) {
    && 0 <= i < j <= |t|
    && (forall k | i <= k < j :: SlugChar(t[k]))
    && (i > 0 ==> !SlugChar(t[i - 1]))
    && (j < |t| ==> !SlugChar(t[j]))
  }

  predicate NoSlugChar(c: char) {
    !SlugChar(c)
  }

  /** The maximal runs in order. */
  function Runs(t: string): seq<string>
    decreases |t|
  {
    if t == "" then []
    else
      var n := Span(NoSlugChar, t);
      if n == 0 then Runs(t[1..]) else [t[..n]] + Runs(t[n..])
  }

  /** The list gives the text of each of these runs. */
  ghost predicate TextsAt(t: string, texts: seq<string>, at: seq<(int, int)>) {
    && |at| == |texts|
    && forall k | 0 <= k < |at| :: RunAt(t, at[k].0, at[k].1) && texts[k] == t[at[k].0..at[k].1]
  }

  ghost predicate Increasing(at: seq<(int, int)>) {
    forall k, m | 0 <= k < m < |at| :: at[k].0 < at[m].0
  }

  /** Every run from `n` on is among these. */
  ghost predicate AllRuns(t: string, n: int, at: seq<(int, int)>) {
    forall i, j | RunAt(t, i, j) && i >= n :: (i, j) in at
  }

  lemma {:induction false} SpanPasses(stop: char -> bool, t: string)
    ensures forall k | 0 <= k < Span(stop, t) :: !stop(t[k])
  {
    if t != "" && !stop(t[0]) {
      SpanPasses(stop, t[1..]);
    }
  }

  function Moved(at: seq<(int, int)>, n: int): seq<(int, int)> {
    seq(|at|, k requires 0 <= k < |at| => (at[k].0 + n, at[k].1 + n))
  }

  /** No run lies across `n`. */
  ghost predicate Border(t: string, n: int) {
    0 <= n <= |t| && (0 < n < |t| ==> !SlugChar(t[n - 1]) || !SlugChar(t[n]))
  }

  lemma RunMoves(t: string, n: int, i: int, j: int)
    requires Border(t, n) && i >= n
    ensures RunAt(t, i, j) <==> RunAt(t[n..], i - n, j - n)
    ensures RunAt(t, i, j) ==> t[i..j] == t[n..][i - n..j - n]
  {
  }

  lemma TextsMove(t: string, n: int, texts: seq<string>, at: seq<(int, int)>)
    requires Border(t, n) && TextsAt(t[n..], texts, at)
    ensures TextsAt(t, texts, Moved(at, n))
  {
    forall k | 0 <= k < |at|
      ensures var (i, j) := Moved(at, n)[k]; RunAt(t, i, j) && texts[k] == t[i..j]
    {
      RunMoves(t, n, at[k].0 + n, at[k].1 + n);
    }
  }

  lemma AllRunsMove(t: string, n: int, at: seq<(int, int)>)
    requires Border(t, n) && AllRuns(t[n..], 0, at)
    ensures AllRuns(t, n, Moved(at, n))
  {
    forall i, j | RunAt(t, i, j) && i >= n ensures (i, j) in Moved(at, n) {
      RunMoves(t, n, i, j);
      var k :| 0 <= k < |at| && at[k] == (i - n, j - n);
      assert Moved(at, n)[k] == (i, j);
    }
  }

  /** `Runs` lists exactly the maximal runs, from left to right. */
  lemma {:induction false} RunsAreTheRuns(t: string) returns (at: seq<(int, int)>)
    ensures TextsAt(t, Runs(t), at) && Increasing(at) && AllRuns(t, 0, at)
    decreases |t|
  {
    if t == "" {
      return [];
    }
    var n := Span(NoSlugChar, t);
    SpanPasses(NoSlugChar, t);
    var skip := if n == 0 then 1 else n;
    var rest := RunsAreTheRuns(t[skip..]);
    at := Moved(rest, skip);
    TextsMove(t, skip, Runs(t[skip..]), rest);
    AllRunsMove(t, skip, rest);
    if n == 0 {
      NoFirstRun(t, at);
    } else {
      StartsLater(t, n, Runs(t[n..]), rest);
      MoreTexts(t, n, Runs(t[n..]), at);
      MoreRuns(t, n, at);
      at := [(0, n)] + at;
    }
  }

  lemma StartsLater(t: string, n: int, texts: seq<string>, at: seq<(int, int)>)
    requires 0 < n <= |t| && TextsAt(t[n..], texts, at) && Increasing(at)
    ensures Increasing([(0, n)] + Moved(at, n))
  {
  }

  lemma NoFirstRun(t: string, at: seq<(int, int)>)
    requires t != "" && !SlugChar(t[0]) && AllRuns(t, 1, at)
    ensures AllRuns(t, 0, at)
  {
  }

  lemma MoreTexts(t: string, n: int, texts: seq<string>, at: seq<(int, int)>)
    requires RunAt(t, 0, n) && TextsAt(t, texts, at)
    ensures TextsAt(t, [t[..n]] + texts, [(0, n)] + at)
  {
    assert t[0..n] == t[..n];
  }

  lemma MoreRuns(t: string, n: int, at: seq<(int, int)>)
    requires RunAt(t, 0, n) && AllRuns(t, n, at)
    ensures AllRuns(t, 0, [(0, n)] + at)
  {
    forall i, j | RunAt(t, i, j) ensures (i, j) in [(0, n)] + at {
      if i < n {
        FirstRun(t, n, i, j);
        assert ([(0, n)] + at)[0] == (i, j);
      }
    }
  }

  lemma FirstRun(t: string, n: int, i: int, j: int)
    requires 0 < n <= |t| && RunAt(t, i, j) && i < n
    requires (forall k | 0 <= k < n :: SlugChar(t[k])) && (n < |t| ==> !SlugChar(t[n]))
    ensures i == 0 && j == n
  {
  }

  lemma {:induction false} RunsSkip(t: string, n: nat)
    requires n <= |t| && forall k | 0 <= k < n :: !SlugChar(t[k])
    ensures Runs(t) == Runs(t[n..])
    decreases n
  {
    if n > 0 {
      RunsSkip(t[1..], n - 1);
      assert t[1..][n - 1..] == t[n..];
    } else {
      assert t[0..] == t;
    }
  }

  lemma {:induction false} DashedKeepsRun(w: string, r: string)
    requires All(SlugChar, w)
    ensures Dashed(w + r) == w + Dashed(r)
  {
    if w == "" {
      assert w + r == r;
    } else {
      assert (w + r)[1..] == w[1..] + r;
      DashedKeepsRun(w[1..], r);
    }
  }

  lemma {:induction false} TrimRightAppend(p: char -> bool, a: string, y: string)
    ensures TrimRight(p, a + y) == if TrimRight(p, y) == "" then TrimRight(p, a) else a + TrimRight(p, y)
  {
    if y == "" {
      assert a + y == a;
    } else if p(y[|y| - 1]) {
      assert (a + y)[..|a + y| - 1] == a + y[..|y| - 1];
      TrimRightAppend(p, a, y[..|y| - 1]);
    }
  }

  /** A run, a gap, and what follows the gap. */
  lemma TrimRun(w: string, rest: string)
    requires w != "" && All(SlugChar, w)
    requires rest == "" || SlugChar(rest[0])
    ensures Trim(Dash, w + ("-" + rest)) == if rest == "" then w else w + ("-" + Trim(Dash, rest))
  {
    var all := w + ("-" + rest);
    assert SlugChar(w[0]) && all[0] == w[0] && TrimLeft(Dash, all) == all;
    TrimRightAppend(Dash, w, "-" + rest);
    TrimRightAppend(Dash, "-", rest);
    DashGoes();
    if rest != "" {
      StaysFull(rest);
    } else {
      assert SlugChar(w[|w| - 1]) && "-" + rest == "-";
    }
  }

  lemma DashGoes()
    ensures TrimRight(Dash, "-") == ""
  {
    assert "-"[..0] == "";
  }

  lemma StaysFull(rest: string)
    requires rest != "" && SlugChar(rest[0])
    ensures TrimRight(Dash, rest) != "" && Trim(Dash, rest) == TrimRight(Dash, rest)
  {
    TrimRightAppend(Dash, [rest[0]], rest[1..]);
    assert [rest[0]] + rest[1..] == rest && [rest[0]][..0] == "";
  }

  lemma JoinFirst(w: string, texts: seq<string>)
    ensures Join([w] + texts, '-') == if texts == [] then w else w + ("-" + Join(texts, '-'))
  {
    assert ([w] + texts)[1..] == texts;
  }

  lemma {:induction false} TrimmedRuns(t: string)
    ensures Trim(Dash, Dashed(t)) == Join(Runs(t), '-')
    decreases |t|
  {
    if t != "" {
      var n := Span(NoSlugChar, t);
      SpanPasses(NoSlugChar, t);
      if n == 0 {
        GapFirst(t);
        TrimmedRuns(t[NonSlug(t)..]);
      } else if n == |t| {
        OneRun(t);
      } else {
        var w, r := t[..n], t[n..];
        GapFirst(r);
        var rest := r[NonSlug(r)..];
        TrimmedRuns(rest);
        DashedKeepsRun(w, r);
        assert w + r == t;
        DashedStart(rest);
        TrimRun(w, Dashed(rest));
        JoinFirst(w, Runs(rest));
      }
    }
  }

  lemma OneRun(t: string)
    requires t != "" && Span(NoSlugChar, t) == |t|
    ensures Trim(Dash, Dashed(t)) == Join(Runs(t), '-')
  {
    SpanPasses(NoSlugChar, t);
    RunAlone(t);
    DashedKeepsRun(t, "");
    assert t + "" == t && Dashed("") == "";
    TrimOfTight(Dash, t) by { assert SlugChar(t[0]) && SlugChar(t[|t| - 1]); }
  }

  lemma RunAlone(t: string)
    requires t != "" && Span(NoSlugChar, t) == |t|
    ensures Runs(t) == [t]
  {
    assert t[|t|..] == "" && t[..|t|] == t && Runs("") == [];
  }

  lemma GapFirst(t: string)
    requires t != "" && !SlugChar(t[0])
    ensures var rest := t[NonSlug(t)..];
      && NonSlug(t) > 0 && (rest == "" || SlugChar(rest[0]))
      && Runs(t) == Runs(rest) && Dashed(t) == "-" + Dashed(rest)
      && Trim(Dash, Dashed(t)) == Trim(Dash, Dashed(rest))
  {
    SpanPasses(SlugChar, t);
    RunsSkip(t, NonSlug(t));
    var rest := t[NonSlug(t)..];
    assert ("-" + Dashed(rest))[1..] == Dashed(rest);
  }

  lemma DashedStart(t: string)
    requires t == "" || SlugChar(t[0])
    ensures Dashed(t) == "" <==> t == ""
    ensures Runs(t) == [] <==> t == ""
    ensures t != "" ==> Dashed(t)[0] == t[0]
  {
  }

  /** A slug is the runs of its text put together with dashes, and "section" if there are none. */
  lemma SlugSaysRuns(lower: string -> string, text: string)
    ensures var slug, runs := Slugify(lower, text), Runs(lower(Strip(text)));
      && (runs != [] ==> Split(slug, '-') == runs && slug == Join(runs, '-'))
      && (runs == [] ==> slug == "section")
  {
    var t := lower(Strip(text));
    var runs := Runs(t);
    TrimmedRuns(t);
    RunsAreFull(t);
    if runs != [] {
      SplitJoin(runs, '-');
      assert runs[0] in runs;
    }
  }

  lemma RunsAreFull(t: string)
    ensures forall r | r in Runs(t) :: r != "" && '-' !in r
    ensures Runs(t) != [] ==> Join(Runs(t), '-') != ""
  {
    var at := RunsAreTheRuns(t);
    forall r | r in Runs(t) ensures r != "" && '-' !in r {
      var k :| 0 <= k < |at| && Runs(t)[k] == r;
      assert RunAt(t, at[k].0, at[k].1);
    }
  }

  /** The runs a slug stands for. */
  ghost function Said(runs: seq<string>): seq<string> {
    if runs == [] then ["section"] else runs
  }

  /** Two headings have the same slug exactly when they have the same runs, a heading without any
      counting as the word "section". */
  lemma SameSlug(lower: string -> string, a: string, b: string)
    ensures Slugify(lower, a) == Slugify(lower, b) <==>
      Said(Runs(lower(Strip(a)))) == Said(Runs(lower(Strip(b))))
  {
    SlugSaysRuns(lower, a);
    SlugSaysRuns(lower, b);
    SplitPlain("section", '-');
  }

  // ----- decimal suffixes

  function Digit(d: nat): char
    requires d < 10
  {
    ('0' as int + d) as char
  }

  /** The decimal form of a number, as an f-string writes it. */
  function Dec(n: nat): (s: string)
    ensures s != "" && '-' !in s
  {
    if n < 10 then [Digit(n)] else Dec(n / 10) + [Digit(n % 10)]
  }

  function Value(s: string): int {
    if s == "" then 0 else Value(s[..|s| - 1]) * 10 + (s[|s| - 1] as int - '0' as int)
  }

  lemma {:induction false} ValueOfDec(n: nat)
    ensures Value(Dec(n)) == n
  {
    if n >= 10 {
      ValueOfDec(n / 10);
      assert Dec(n)[..|Dec(n)| - 1] == Dec(n / 10);
    } else {
      assert Dec(n)[..0] == "";
    }
  }

  function Suffixed(slug: string, k: nat): string {
    slug + "-" + Dec(k)
  }

  /** The last dash separates: slug and number can be read back. */
  lemma SuffixedInjective(s: string, k: nat, t: string, m: nat)
    requires Suffixed(s, k) == Suffixed(t, m)
    ensures s == t && k == m
  {
    LastDash(s, Dec(k), t, Dec(m));
    LastDash(t, Dec(m), s, Dec(k));
    assert |s| == |t|;
    assert s == Suffixed(s, k)[..|s|] && t == Suffixed(t, m)[..|t|];
    assert Dec(k) == Suffixed(s, k)[|s| + 1..] && Dec(m) == Suffixed(t, m)[|t| + 1..];
    ValueOfDec(k);
    ValueOfDec(m);
  }

  lemma LastDash(s: string, a: string, t: string, b: string)
    requires '-' !in b && s + "-" + a == t + "-" + b
    ensures |s| <= |t|
  {
    if |s| > |t| {
      DashInTail(s, a, t, b);
    }
  }

  lemma DashInTail(s: string, a: string, t: string, b: string)
    requires |s| > |t| && s + "-" + a == t + "-" + b
    ensures '-' in b
  {
    assert (s + "-" + a)[|s|] == '-';
    assert (t + "-" + b)[|s|] == b[|s| - |t| - 1];
  }

  // ----- anchors

  function Count(slugs: seq<string>, slug: string): nat {
    multiset(slugs)[slug]
  }

  function Anchor(slug: string, seen: nat): string {
    if seen == 0 then slug else Suffixed(slug, seen)
  }

  /** The anchor of the `i`-th heading: its slug, numbered by the equal slugs before it. */
  function AnchorAt(slugs: seq<string>, i: nat): string
    requires i < |slugs|
  {
    Anchor(slugs[i], Count(slugs[..i], slugs[i]))
  }

  ghost predicate AnchorsDistinct(slugs: seq<string>) {
    forall i, j | 0 <= i < j < |slugs| :: AnchorAt(slugs, i) != AnchorAt(slugs, j)
  }

  /** One heading's slug is another's with a number that is in use as its suffix. */
  ghost predicate Clash(slugs: seq<string>) {
    exists i, j, k :: 0 <= i < |slugs| && 0 <= j < |slugs| && 1 <= k < Count(slugs, slugs[j])
      && slugs[i] == Suffixed(slugs[j], k)
  }

  lemma CountSplits(slugs: seq<string>, i: nat, slug: string)
    requires i < |slugs|
    ensures Count(slugs[..i + 1], slug) == Count(slugs[..i], slug) + if slugs[i] == slug then 1 else 0
    ensures Count(slugs[..i + 1], slug) <= Count(slugs, slug)
  {
    assert slugs[..i + 1] == slugs[..i] + [slugs[i]];
    assert slugs == slugs[..i + 1] + slugs[i + 1..];
  }

  lemma CountGrows(slugs: seq<string>, i: nat, j: nat)
    requires i < j < |slugs|
    ensures Count(slugs[..i], slugs[i]) < Count(slugs[..j], slugs[i])
  {
    CountSplits(slugs, i, slugs[i]);
    assert slugs[..j] == slugs[..i + 1] + slugs[i + 1..j];
  }

  /** Every number below the count is reached: the occurrence with exactly `k` before it. */
  lemma {:induction false} Occurrence(slugs: seq<string>, slug: string, k: nat)
    requires k < Count(slugs, slug)
    ensures exists i :: 0 <= i < |slugs| && slugs[i] == slug && Count(slugs[..i], slug) == k
  {
    var n := |slugs| - 1;
    CountSplits(slugs, n, slug);
    assert slugs[..n + 1] == slugs;
    if k < Count(slugs[..n], slug) {
      Occurrence(slugs[..n], slug, k);
      var i :| 0 <= i < n && slugs[..n][i] == slug && Count(slugs[..n][..i], slug) == k;
      assert slugs[..n][..i] == slugs[..i];
    }
  }

  /** Anchors are pairwise distinct exactly when no slug is another slug with a suffix that is
      handed out. */
  lemma AnchorsDistinctIff(slugs: seq<string>)
    ensures AnchorsDistinct(slugs) <==> !Clash(slugs)
  {
    if Clash(slugs) {
      ClashCollides(slugs);
    } else {
      forall i, j | 0 <= i < j < |slugs| ensures AnchorAt(slugs, i) != AnchorAt(slugs, j) {
        if AnchorAt(slugs, i) == AnchorAt(slugs, j) {
          CollisionClashes(slugs, i, j);
        }
      }
    }
  }

  lemma CollisionClashes(slugs: seq<string>, i: nat, j: nat)
    requires i < j < |slugs| && AnchorAt(slugs, i) == AnchorAt(slugs, j)
    ensures Clash(slugs)
  {
    var a, b := Count(slugs[..i], slugs[i]), Count(slugs[..j], slugs[j]);
    CountGrows(slugs, i, j);
    CountSplits(slugs, i, slugs[i]);
    CountSplits(slugs, j, slugs[j]);
    if a > 0 && b > 0 {
      SuffixedInjective(slugs[i], a, slugs[j], b);
    }
    assert slugs[i] != slugs[j];
    if a == 0 {
      assert slugs[i] == Suffixed(slugs[j], b);
    } else {
      assert slugs[j] == Suffixed(slugs[i], a);
    }
  }

  lemma ClashCollides(slugs: seq<string>)
    requires Clash(slugs)
    ensures !AnchorsDistinct(slugs)
  {
    var i, j, k :| 0 <= i < |slugs| && 0 <= j < |slugs| && 1 <= k < Count(slugs, slugs[j])
      && slugs[i] == Suffixed(slugs[j], k);
    assert slugs[i] in multiset(slugs);
    Occurrence(slugs, slugs[i], 0);
    Occurrence(slugs, slugs[j], k);
    var a :| 0 <= a < |slugs| && slugs[a] == slugs[i] && Count(slugs[..a], slugs[i]) == 0;
    var b :| 0 <= b < |slugs| && slugs[b] == slugs[j] && Count(slugs[..b], slugs[j]) == k;
    assert |slugs[a]| > |slugs[b]|;
    assert AnchorAt(slugs, a) == AnchorAt(slugs, b);
    assert a < b || b < a;
  }

  /** The simpler condition: no slug is another one followed by a dash and a number. */
  lemma NoNumberedSlugs(slugs: seq<string>)
    requires forall i, j, k: nat | 0 <= i < |slugs| && 0 <= j < |slugs| :: slugs[i] != Suffixed(slugs[j], k)
    ensures AnchorsDistinct(slugs)
  {
    AnchorsDistinctIff(slugs);
  }

  /** Two equal headings and one spelled like the second anchor share an anchor. */
  lemma NumberedHeadingCollides(slug: string)
    ensures !AnchorsDistinct([slug, slug, Suffixed(slug, 1)])
  {
    var slugs := [slug, slug, Suffixed(slug, 1)];
    assert Count(slugs, slugs[0]) >= 2 && slugs[2] == Suffixed(slugs[0], 1);
    AnchorsDistinctIff(slugs);
  }

  // ----- the token stream

  datatype Kind = HeadingOpen | InlineText | OtherToken

  class Token {
    const kind: Kind
    const tag: string
    const content: string
    var id: Option<string>

    constructor (kind: Kind, tag: string, content: string)
      ensures this.kind == kind && this.tag == tag && this.content == content && id == None
    {
      this.kind, this.tag, this.content, this.id := kind, tag, content, None;
    }
  }

  datatype Heading = Heading(anchor: string, text: string, level: nat)

  /** The text of the heading opened at `i`: the content of the token after it. */
  function TextAt(tokens: seq<Token>, i: nat): string {
    if i + 1 < |tokens| then tokens[i + 1].content else ""
  }

  /** The slugs of the headings among the first `n` tokens. */
  function Slugs(slugify: string -> string, tokens: seq<Token>, n: nat): seq<string>
    requires n <= |tokens|
  {
    if n == 0 then []
    else
      Slugs(slugify, tokens, n - 1)
      + if tokens[n - 1].kind == HeadingOpen then [slugify(TextAt(tokens, n - 1))] else []
  }

  /** The table of contents of the first `n` tokens: headings two and three deep. */
  function Contents(slugify: string -> string, tokens: seq<Token>, n: nat): seq<Heading>
    requires n <= |tokens|
  {
    if n == 0 then []
    else
      var t := tokens[n - 1];
      Contents(slugify, tokens, n - 1)
      + if t.kind == HeadingOpen && t.tag in {"h2", "h3"}
        then [Heading(IdAt(slugify, tokens, n - 1), TextAt(tokens, n - 1), t.tag[1] as int - '0' as int)] else []
  }

  /** The anchor of the heading opened at `i`. */
  function IdAt(slugify: string -> string, tokens: seq<Token>, i: nat): string
    requires i < |tokens|
  {
    var slug := slugify(TextAt(tokens, i));
    Anchor(slug, Count(Slugs(slugify, tokens, i), slug))
  }

  ghost predicate CountsOf(used: map<string, nat>, slugs: seq<string>) {
    forall s: string :: (if s in used then used[s] else 0) == Count(slugs, s)
  }

  /** `_anchor_for`, with the counts it leaves; `slugify` is `_slugify`. */
  method AnchorFor(slugify: string -> string, text: string, used: map<string, nat>, ghost slugs: seq<string>)
    returns (anchor: string, now: map<string, nat>)
    requires CountsOf(used, slugs)
    ensures anchor == Anchor(slugify(text), Count(slugs, slugify(text)))
    ensures CountsOf(now, slugs + [slugify(text)])
  {
    var base := slugify(text);
    var seen := if base in used then used[base] else 0;
    now := used[base := seen + 1];
    anchor := if seen == 0 then base else base + "-" + Dec(seen);
  }

  /** The heading part of `_decorate`. */
  method Decorate(slugify: string -> string, tokens: seq<Token>) returns (headings: seq<Heading>)
    requires Distinct(tokens)
    modifies tokens
    ensures Marked(slugify, tokens, old(Ids(tokens)), |tokens|)
    ensures headings == Contents(slugify, tokens, |tokens|)
  {
    headings := [];
    var used: map<string, nat> := map[];
    ghost var ids := Ids(tokens);
    for n := 0 to |tokens|
      invariant CountsOf(used, Slugs(slugify, tokens, n)) && headings == Contents(slugify, tokens, n)
      invariant Marked(slugify, tokens, ids, n)
    {
      used, headings := Visit(slugify, tokens, n, used, headings, ids);
    }
  }

  ghost function Ids(tokens: seq<Token>): (ids: seq<Option<string>>)
    reads tokens
    ensures |ids| == |tokens| && forall i | 0 <= i < |tokens| :: ids[i] == tokens[i].id
  {
    seq(|tokens|, i requires 0 <= i < |tokens| reads tokens => tokens[i].id)
  }

  /** The headings among the first `n` tokens have their anchors as ids; every other token still
      has the id it had in `ids`. */
  ghost predicate Marked(slugify: string -> string, tokens: seq<Token>, ids: seq<Option<string>>, n: nat)
    reads tokens
    requires |ids| == |tokens|
  {
    forall i | 0 <= i < |tokens| ::
      tokens[i].id == if i < n && tokens[i].kind == HeadingOpen then Some(IdAt(slugify, tokens, i)) else ids[i]
  }

  /** `token.attrSet("id", anchor)` */
  method Mark(slugify: string -> string, tokens: seq<Token>, n: nat, anchor: string, ghost ids: seq<Option<string>>)
    requires n < |tokens| && Distinct(tokens) && |ids| == |tokens|
    requires tokens[n].kind == HeadingOpen && anchor == IdAt(slugify, tokens, n)
    requires Marked(slugify, tokens, ids, n)
    modifies tokens[n]
    ensures Marked(slugify, tokens, ids, n + 1)
  {
    assert forall i | 0 <= i < |tokens| && i != n :: tokens[i] != tokens[n];
    tokens[n].id := Some(anchor);
  }

  /** The loop body. */
  method Visit(slugify: string -> string, tokens: seq<Token>, n: nat, used: map<string, nat>, headings: seq<Heading>,
               ghost ids: seq<Option<string>>)
    returns (now: map<string, nat>, listed: seq<Heading>)
    requires n < |tokens| && Distinct(tokens) && |ids| == |tokens|
    requires CountsOf(used, Slugs(slugify, tokens, n)) && headings == Contents(slugify, tokens, n)
    requires Marked(slugify, tokens, ids, n)
    modifies tokens[n]
    ensures CountsOf(now, Slugs(slugify, tokens, n + 1)) && listed == Contents(slugify, tokens, n + 1)
    ensures Marked(slugify, tokens, ids, n + 1)
  {
    if tokens[n].kind == HeadingOpen {
      var anchor;
      anchor, now, listed := HeadingStep(slugify, tokens, n, used, headings);
      Mark(slugify, tokens, n, anchor, ids);
    } else {
      OtherTokenFacts(slugify, tokens, n);
      now, listed := used, headings;
    }
  }

  /** What the loop body computes for the opening token of a heading. */
  method HeadingStep(
    slugify: string -> string, tokens: seq<Token>, n: nat, used: map<string, nat>, headings: seq<Heading>)
    returns (anchor: string, now: map<string, nat>, listed: seq<Heading>)
    requires n < |tokens| && tokens[n].kind == HeadingOpen
    requires CountsOf(used, Slugs(slugify, tokens, n)) && headings == Contents(slugify, tokens, n)
    ensures anchor == IdAt(slugify, tokens, n)
    ensures CountsOf(now, Slugs(slugify, tokens, n + 1)) && listed == Contents(slugify, tokens, n + 1)
  {
    var text := TextAt(tokens, n);
    HeadingFacts(slugify, tokens, n);
    anchor, now := AnchorFor(slugify, text, used, Slugs(slugify, tokens, n));
    listed := headings;
    if tokens[n].tag in {"h2", "h3"} {
      listed := headings + [Heading(anchor, text, tokens[n].tag[1] as int - '0' as int)];
    }
  }

  lemma HeadingFacts(slugify: string -> string, tokens: seq<Token>, n: nat)
    requires n < |tokens| && tokens[n].kind == HeadingOpen
    ensures Slugs(slugify, tokens, n + 1) == Slugs(slugify, tokens, n) + [slugify(TextAt(tokens, n))]
    ensures Contents(slugify, tokens, n + 1) == Contents(slugify, tokens, n)
      + if tokens[n].tag in {"h2", "h3"}
        then [Heading(IdAt(slugify, tokens, n), TextAt(tokens, n), tokens[n].tag[1] as int - '0' as int)] else []
  {
  }

  lemma OtherTokenFacts(slugify: string -> string, tokens: seq<Token>, n: nat)
    requires n < |tokens| && tokens[n].kind != HeadingOpen
    ensures Slugs(slugify, tokens, n + 1) == Slugs(slugify, tokens, n)
    ensures Contents(slugify, tokens, n + 1) == Contents(slugify, tokens, n)
  {
  }

  lemma {:induction false} SlugsGrow(slugify: string -> string, tokens: seq<Token>, m: nat, n: nat)
    requires m <= n <= |tokens|
    ensures Slugs(slugify, tokens, m) <= Slugs(slugify, tokens, n)
  {
    if m < n {
      SlugsGrow(slugify, tokens, m, n - 1);
    }
  }

  /** The id given at `i` is the anchor at the position the heading has among the headings. */
  lemma IdIsAnchor(slugify: string -> string, tokens: seq<Token>, i: nat)
    requires i < |tokens| && tokens[i].kind == HeadingOpen
    ensures var slugs := Slugs(slugify, tokens, |tokens|);
      var at := |Slugs(slugify, tokens, i)|;
      at < |slugs| && IdAt(slugify, tokens, i) == AnchorAt(slugs, at)
  {
    var before := Slugs(slugify, tokens, i);
    SlugsGrow(slugify, tokens, i + 1, |tokens|);
    assert Slugs(slugify, tokens, |tokens|)[..|before|] == before;
  }

  lemma {:induction false} HeadingOf(slugify: string -> string, tokens: seq<Token>, n: nat, at: nat)
    requires n <= |tokens| && at < |Slugs(slugify, tokens, n)|
    ensures exists i :: 0 <= i < n && tokens[i].kind == HeadingOpen && |Slugs(slugify, tokens, i)| == at
  {
    if at < |Slugs(slugify, tokens, n - 1)| {
      HeadingOf(slugify, tokens, n - 1, at);
    }
  }

  ghost predicate IdsDistinct(slugify: string -> string, tokens: seq<Token>) {
    forall i, j | 0 <= i < j < |tokens| && tokens[i].kind == tokens[j].kind == HeadingOpen ::
      IdAt(slugify, tokens, i) != IdAt(slugify, tokens, j)
  }

  lemma IdsOfDistinctAnchors(slugify: string -> string, tokens: seq<Token>, i: nat, j: nat)
    requires i < j < |tokens| && tokens[i].kind == tokens[j].kind == HeadingOpen
    requires AnchorsDistinct(Slugs(slugify, tokens, |tokens|))
    ensures IdAt(slugify, tokens, i) != IdAt(slugify, tokens, j)
  {
    var slugs := Slugs(slugify, tokens, |tokens|);
    var a, b := |Slugs(slugify, tokens, i)|, |Slugs(slugify, tokens, j)|;
    IdIsAnchor(slugify, tokens, i);
    IdIsAnchor(slugify, tokens, j);
    LaterHeading(slugify, tokens, i, j);
    assert AnchorAt(slugs, a) != AnchorAt(slugs, b);
  }

  lemma {:induction false} LaterHeading(slugify: string -> string, tokens: seq<Token>, i: nat, j: nat)
    requires i < j < |tokens| && tokens[i].kind == HeadingOpen
    ensures |Slugs(slugify, tokens, i)| < |Slugs(slugify, tokens, j)|
  {
    SlugsGrow(slugify, tokens, i + 1, j);
  }

  lemma AnchorsOfDistinctIds(slugify: string -> string, tokens: seq<Token>, a: nat, b: nat)
    requires a < b < |Slugs(slugify, tokens, |tokens|)| && IdsDistinct(slugify, tokens)
    ensures AnchorAt(Slugs(slugify, tokens, |tokens|), a) != AnchorAt(Slugs(slugify, tokens, |tokens|), b)
  {
    var i := HeadingAt(slugify, tokens, a);
    var j := HeadingAt(slugify, tokens, b);
    DistinctIdsDiffer(slugify, tokens, i, j);
  }

  lemma DistinctIdsDiffer(slugify: string -> string, tokens: seq<Token>, i: nat, j: nat)
    requires IdsDistinct(slugify, tokens) && i < |tokens| && j < |tokens| && i != j
    requires tokens[i].kind == tokens[j].kind == HeadingOpen
    ensures IdAt(slugify, tokens, i) != IdAt(slugify, tokens, j)
  {
    assert i < j || j < i;
  }

  lemma HeadingAt(slugify: string -> string, tokens: seq<Token>, a: nat) returns (i: nat)
    requires a < |Slugs(slugify, tokens, |tokens|)|
    ensures i < |tokens| && tokens[i].kind == HeadingOpen && |Slugs(slugify, tokens, i)| == a
    ensures IdAt(slugify, tokens, i) == AnchorAt(Slugs(slugify, tokens, |tokens|), a)
  {
    HeadingOf(slugify, tokens, |tokens|, a);
    i :| 0 <= i < |tokens| && tokens[i].kind == HeadingOpen && |Slugs(slugify, tokens, i)| == a;
    IdIsAnchor(slugify, tokens, i);
  }

  /** No two headings of a document share an id, exactly when their slugs do not clash. */
  lemma IdsDistinctIff(slugify: string -> string, tokens: seq<Token>)
    ensures IdsDistinct(slugify, tokens) <==> !Clash(Slugs(slugify, tokens, |tokens|))
  {
    var slugs := Slugs(slugify, tokens, |tokens|);
    AnchorsDistinctIff(slugs);
    if AnchorsDistinct(slugs) {
      forall i, j | 0 <= i < j < |tokens| && tokens[i].kind == tokens[j].kind == HeadingOpen
        ensures IdAt(slugify, tokens, i) != IdAt(slugify, tokens, j)
      {
        IdsOfDistinctAnchors(slugify, tokens, i, j);
      }
    }
    if IdsDistinct(slugify, tokens) {
      forall a, b | 0 <= a < b < |slugs| ensures AnchorAt(slugs, a) != AnchorAt(slugs, b) {
        AnchorsOfDistinctIds(slugify, tokens, a, b);
      }
    }
  }

  // ----- ids of a rendered document

  function Slugger(lower: string -> string): string -> string {
    text => Slugify(lower, text)
  }

  ghost predicate UrlSafe(s: string) {
    s != "" && forall i | 0 <= i < |s| :: SlugChar(s[i]) || s[i] == '-'
  }

  lemma {:induction false} DecIsUrlSafe(n: nat)
    ensures UrlSafe(Dec(n))
  {
    if n >= 10 {
      DecIsUrlSafe(n / 10);
    }
  }

  /** Every id is a non-empty text of a-z, 0-9 and dashes. */
  lemma IdsAreUrlSafe(lower: string -> string, tokens: seq<Token>, i: nat)
    requires i < |tokens|
    ensures UrlSafe(IdAt(Slugger(lower), tokens, i))
  {
    SlugsAreNormal(lower, TextAt(tokens, i));
    var slug := Slugify(lower, TextAt(tokens, i));
    SuffixIsUrlSafe(slug, Count(Slugs(Slugger(lower), tokens, i), slug));
  }

  lemma SuffixIsUrlSafe(slug: string, k: nat)
    requires Normal(slug)
    ensures UrlSafe(Anchor(slug, k))
  {
    DecIsUrlSafe(k);
  }

  // ----- ids and contents, said of the tokens

  /** What a heading is called: the content of the inline token after its opening token. */
  ghost predicate HeadingAs(slugify: string -> string, tokens: seq<Token>, i: int, slug: string) {
    && 0 <= i < |tokens| && tokens[i].kind == HeadingOpen
    && slug == slugify(if i + 1 < |tokens| then tokens[i + 1].content else "")
  }

  /** The headings before `n` with this slug. */
  ghost function Earlier(slugify: string -> string, tokens: seq<Token>, n: int, slug: string): set<int> {
    set i | 0 <= i < n && HeadingAs(slugify, tokens, i, slug)
  }

  lemma CountMore(slugs: seq<string>, last: string, slug: string)
    ensures Count(slugs + [last], slug) == Count(slugs, slug) + if last == slug then 1 else 0
  {
  }

  lemma EarlierStep(slugify: string -> string, tokens: seq<Token>, n: nat, slug: string)
    ensures Earlier(slugify, tokens, n + 1, slug) ==
      Earlier(slugify, tokens, n, slug) + if HeadingAs(slugify, tokens, n, slug) then {n} else {}
  {
  }

  lemma EarlierGrows(slugify: string -> string, tokens: seq<Token>, n: nat, slug: string)
    ensures |Earlier(slugify, tokens, n + 1, slug)| ==
      |Earlier(slugify, tokens, n, slug)| + if HeadingAs(slugify, tokens, n, slug) then 1 else 0
  {
    EarlierStep(slugify, tokens, n, slug);
  }

  lemma CountGrowsWith(slugify: string -> string, tokens: seq<Token>, n: nat, slug: string)
    requires n < |tokens|
    ensures Count(Slugs(slugify, tokens, n + 1), slug) ==
      Count(Slugs(slugify, tokens, n), slug) + if HeadingAs(slugify, tokens, n, slug) then 1 else 0
  {
    if tokens[n].kind == HeadingOpen {
      HeadingFacts(slugify, tokens, n);
      CountMore(Slugs(slugify, tokens, n), slugify(TextAt(tokens, n)), slug);
    } else {
      OtherTokenFacts(slugify, tokens, n);
    }
  }

  ghost predicate CountedAt(slugify: string -> string, tokens: seq<Token>, n: nat, slug: string) {
    n <= |tokens| && |Earlier(slugify, tokens, n, slug)| == Count(Slugs(slugify, tokens, n), slug)
  }

  lemma CountedFirst(slugify: string -> string, tokens: seq<Token>, slug: string)
    ensures CountedAt(slugify, tokens, 0, slug)
  {
    assert Earlier(slugify, tokens, 0, slug) == {};
  }

  lemma CountedNext(slugify: string -> string, tokens: seq<Token>, n: nat, slug: string)
    requires n < |tokens| && CountedAt(slugify, tokens, n, slug)
    ensures CountedAt(slugify, tokens, n + 1, slug)
  {
    EarlierGrows(slugify, tokens, n, slug);
    CountGrowsWith(slugify, tokens, n, slug);
  }

  ghost function CountedUpTo(slugify: string -> string, tokens: seq<Token>, slug: string): int -> bool {
    m => m >= 0 && CountedAt(slugify, tokens, m, slug)
  }

  lemma CountedStep(slugify: string -> string, tokens: seq<Token>, slug: string, n: int, m: int)
    requires 0 <= m < n <= |tokens| && CountedUpTo(slugify, tokens, slug)(m)
    ensures CountedUpTo(slugify, tokens, slug)(m + 1)
  {
    CountedNext(slugify, tokens, m, slug);
  }

  lemma AllCounted(slugify: string -> string, tokens: seq<Token>, n: nat, slug: string)
    requires n <= |tokens|
    ensures CountedUpTo(slugify, tokens, slug)(n)
  {
    var p := CountedUpTo(slugify, tokens, slug);
    CountedFirst(slugify, tokens, slug);
    forall m | 0 <= m < n && p(m) ensures p(m + 1) {
      CountedStep(slugify, tokens, slug, n, m);
    }
    UpTo(p, n);
  }

  lemma {:induction false} UpTo(p: int -> bool, n: nat)
    requires p(0) && forall m | 0 <= m < n && p(m) :: p(m + 1)
    ensures p(n)
  {
    if n > 0 {
      UpTo(p, n - 1);
    }
  }

  /** The id of a heading is its slug, followed by a dash and the number of earlier headings with that
      slug if there are any. */
  lemma IdMeaning(slugify: string -> string, tokens: seq<Token>, i: int, slug: string)
    requires HeadingAs(slugify, tokens, i, slug)
    ensures var seen := |Earlier(slugify, tokens, i, slug)|;
      IdAt(slugify, tokens, i) == if seen == 0 then slug else slug + "-" + Dec(seen)
  {
    AllCounted(slugify, tokens, i, slug);
  }

  /** A heading that the contents list. */
  ghost predicate Listed(tokens: seq<Token>, i: int) {
    0 <= i < |tokens| && tokens[i].kind == HeadingOpen && (tokens[i].tag == "h2" || tokens[i].tag == "h3")
  }

  ghost function EntryFor(slugify: string -> string, tokens: seq<Token>, i: int): Heading
    requires Listed(tokens, i)
  {
    Heading(IdAt(slugify, tokens, i), if i + 1 < |tokens| then tokens[i + 1].content else "",
            if tokens[i].tag == "h2" then 2 else 3)
  }

  /** The entries of a filtered list come from these places. */
  ghost predicate EntriesAt<T>(entries: seq<T>, entry: int -> T, at: seq<int>) {
    |at| == |entries| && forall k | 0 <= k < |at| :: entries[k] == entry(at[k])
  }

  /** The places before `n` that are listed, in order. */
  ghost predicate AllListed(listed: int -> bool, n: int, at: seq<int>) {
    && (forall k, m | 0 <= k < m < |at| :: at[k] < at[m])
    && (forall i :: i in at <==> 0 <= i < n && listed(i))
  }

  lemma OneMoreEntry<T>(entries: seq<T>, listed: int -> bool, entry: int -> T, n: nat, at: seq<int>)
    requires EntriesAt(entries, entry, at) && AllListed(listed, n, at) && listed(n)
    ensures EntriesAt(entries + [entry(n)], entry, at + [n]) && AllListed(listed, n + 1, at + [n])
  {
    forall k | 0 <= k < |at| ensures at[k] < n {
      assert at[k] in at;
    }
  }

  ghost function Entries(slugify: string -> string, tokens: seq<Token>): int -> Heading {
    i => if Listed(tokens, i) then EntryFor(slugify, tokens, i) else Heading("", "", 0)
  }

  ghost function InContents(tokens: seq<Token>): int -> bool {
    i => Listed(tokens, i)
  }

  /** Up to the `n`-th token the contents are the listed headings, in the order of the document, each
      with its id, its text and its depth. */
  ghost predicate ListsHeadings(slugify: string -> string, tokens: seq<Token>, n: int) {
    && 0 <= n <= |tokens|
    && exists at ::
         && EntriesAt(Contents(slugify, tokens, n), Entries(slugify, tokens), at)
         && AllListed(InContents(tokens), n, at)
  }

  lemma NothingListed(slugify: string -> string, tokens: seq<Token>)
    ensures ListsHeadings(slugify, tokens, 0)
  {
    var at: seq<int> := [];
    assert EntriesAt(Contents(slugify, tokens, 0), Entries(slugify, tokens), at);
    assert AllListed(InContents(tokens), 0, at);
  }

  lemma NextListed(slugify: string -> string, tokens: seq<Token>, n: nat)
    requires n < |tokens| && ListsHeadings(slugify, tokens, n)
    ensures ListsHeadings(slugify, tokens, n + 1)
  {
    var contents, listed, entry := Contents(slugify, tokens, n), InContents(tokens), Entries(slugify, tokens);
    var at :| EntriesAt(contents, entry, at) && AllListed(listed, n, at);
    ContentsStep(slugify, tokens, n);
    if listed(n) {
      OneMoreEntry(contents, listed, entry, n, at);
    } else {
      NoMoreEntry(listed, n, at);
    }
  }

  lemma NoMoreEntry(listed: int -> bool, n: nat, at: seq<int>)
    requires AllListed(listed, n, at) && !listed(n)
    ensures AllListed(listed, n + 1, at)
  {
  }

  /** The contents are exactly the headings two and three deep. */
  lemma ContentsMeaning(slugify: string -> string, tokens: seq<Token>)
    ensures ListsHeadings(slugify, tokens, |tokens|)
  {
    var p := n => ListsHeadings(slugify, tokens, n);
    NothingListed(slugify, tokens);
    forall n | 0 <= n < |tokens| && p(n) ensures p(n + 1) {
      NextListed(slugify, tokens, n);
    }
    UpTo(p, |tokens|);
  }

  lemma ContentsStep(slugify: string -> string, tokens: seq<Token>, n: nat)
    requires n < |tokens|
    ensures Contents(slugify, tokens, n + 1) == Contents(slugify, tokens, n)
      + if Listed(tokens, n) then [EntryFor(slugify, tokens, n)] else []
  {
    LevelOf(tokens[n].tag);
    if tokens[n].kind == HeadingOpen {
      HeadingFacts(slugify, tokens, n);
    } else {
      OtherTokenFacts(slugify, tokens, n);
    }
  }

  lemma LevelOf(tag: string)
    ensures tag in {"h2", "h3"} <==> tag == "h2" || tag == "h3"
    ensures tag == "h2" ==> tag[1] as int - '0' as int == 2
    ensures tag == "h3" ==> tag[1] as int - '0' as int == 3
  {
  }
}
