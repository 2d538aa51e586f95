/** How `str.replace` acts on texts put side by side, when what is inserted keeps its distance from what
    is looked for. */
module Replacement {
  import opened Text

  // ----- texts side by side

  ghost predicate EndsWith(t: string, u: string) {
    |u| <= |t| && t[|t| - |u|..] == u
  }

  /** No occurrence of `s` lies across the border between the two texts. */
  ghost predicate Apart(a: string, b: string, s: string) {
    forall i | 0 < i < |s| :: !(EndsWith(a, s[..i]) && s[i..] <= b)
  }

  /** The marker is not inside the secret, and their ends do not overlap. */
  ghost predicate Off(s: string, marker: string) {
    && !Contains(s, marker)
    && forall i | 0 < i < |s| :: !(s[i..] <= marker) && !EndsWith(marker, s[..i])
  }

  lemma PrefixSplits(a: string, b: string, p: string)
    requires Apart(a, b, p) && a != "" && p != ""
    ensures p <= a + b <==> p <= a
  {
    if p <= a + b && |p| > |a| {
      AcrossTheBorder(a, b, p);
    }
    if p <= a + b && |p| <= |a| {
      assert (a + b)[..|p|] == a[..|p|];
    }
  }

  lemma AcrossTheBorder(a: string, b: string, p: string)
    requires a != "" && p <= a + b && |p| > |a|
    ensures !Apart(a, b, p)
  {
    var i := |a|;
    assert p[..i] == (a + b)[..i] == a;
    assert p[i..] == (a + b)[i..|p|] == b[..|p| - i];
    assert EndsWith(a, p[..i]) && p[i..] <= b;
  }

  lemma ApartFurther(a: string, b: string, s: string, n: nat)
    requires Apart(a, b, s) && n <= |a|
    ensures Apart(a[n..], b, s)
  {
    forall i | 0 < i < |s| ensures !(EndsWith(a[n..], s[..i]) && s[i..] <= b) {
      if EndsWith(a[n..], s[..i]) {
        assert a[n..][|a| - n - i..] == a[|a| - i..];
        assert EndsWith(a, s[..i]);
      }
    }
  }

  lemma {:induction false} ContainsSplits(a: string, b: string, s: string)
    requires Apart(a, b, s) && s != ""
    ensures Contains(a + b, s) <==> Contains(a, s) || Contains(b, s)
    decreases |a|
  {
    if a == "" {
      assert a + b == b;
      assert !Contains(a, s);
    } else {
      ApartFurther(a, b, s, 1);
      ContainsSplits(a[1..], b, s);
      assert (a + b)[1..] == a[1..] + b;
      PrefixSplits(a, b, s);
      ContainsStep(a + b, s);
      ContainsStep(a, s);
    }
  }

  lemma ContainsStep(t: string, s: string)
    requires t != ""
    ensures Contains(t, s) <==> s <= t || Contains(t[1..], s)
  {
    assert t[0..] == t;
    if i :| 0 <= i <= |t| && s <= t[i..] {
      assert i > 0 ==> t[1..][i - 1..] == t[i..];
    }
    if i :| 0 <= i <= |t[1..]| && s <= t[1..][i..] {
      assert t[1..][i..] == t[i + 1..];
    }
  }

  /** Replacement works on the two sides of a border nothing lies across. */
  lemma {:induction false} ReplaceSplits(a: string, b: string, p: string, rep: string)
    requires Apart(a, b, p) && p != ""
    ensures Replace(a + b, p, rep) == Replace(a, p, rep) + Replace(b, p, rep)
    decreases |a|
  {
    if a == "" {
      assert a + b == b;
      assert Replace(a, p, rep) + Replace(b, p, rep) == Replace(b, p, rep);
    } else {
      PrefixSplits(a, b, p);
      var n := if p <= a then |p| else 1;
      ApartFurther(a, b, p, n);
      ReplaceSplits(a[n..], b, p, rep);
      ReplaceSplitsStep(a, b, p, rep, n);
    }
  }

  lemma ReplaceSplitsStep(a: string, b: string, p: string, rep: string, n: nat)
    requires a != "" && p != "" && n == (if p <= a then |p| else 1) && (p <= a + b <==> p <= a)
    requires Replace(a[n..] + b, p, rep) == Replace(a[n..], p, rep) + Replace(b, p, rep)
    ensures Replace(a + b, p, rep) == Replace(a, p, rep) + Replace(b, p, rep)
  {
    ReplaceHead(a, p, rep);
    HeadOfSum(a, b, p, rep, n);
    Associate(if p <= a then rep else [a[0]], Replace(a[n..], p, rep), Replace(b, p, rep));
  }

  lemma HeadOfSum(a: string, b: string, p: string, rep: string, n: nat)
    requires a != "" && p != "" && n == (if p <= a then |p| else 1) && (p <= a + b <==> p <= a)
    ensures Replace(a + b, p, rep) == (if p <= a then rep else [a[0]]) + Replace(a[n..] + b, p, rep)
  {
    ReplaceHead(a + b, p, rep);
    assert (a + b)[n..] == a[n..] + b && (a + b)[0] == a[0];
  }

  lemma Associate(a: string, b: string, c: string)
    ensures a + (b + c) == (a + b) + c
  {
  }

  lemma ReplaceHead(t: string, p: string, rep: string)
    requires t != "" && p != ""
    ensures Replace(t, p, rep) ==
      if p <= t then rep + Replace(t[|p|..], p, rep) else [t[0]] + Replace(t[1..], p, rep)
  {
  }

  // ----- what a replacement leaves at its ends

  lemma ContainsInside(t: string, lo: nat, hi: nat, s: string)
    requires lo <= hi <= |t| && Contains(t[lo..hi], s)
    ensures Contains(t, s)
  {
    var i :| 0 <= i <= |t[lo..hi]| && s <= t[lo..hi][i..];
    assert t[lo..hi][i..] == t[lo + i..hi];
    assert s <= t[lo + i..];
  }

  /** A replacement that inserts no marker changes nothing. */
  lemma {:induction false} ChangedOrNot(t: string, p: string, marker: string)
    requires p != ""
    ensures Replace(t, p, marker) == t || Contains(Replace(t, p, marker), marker)
    decreases |t|
  {
    if t != "" {
      ReplaceHead(t, p, marker);
      if p <= t {
        var rest := Replace(t[|p|..], p, marker);
        assert marker <= (marker + rest)[0..];
      } else {
        ChangedOrNot(t[1..], p, marker);
        assert [t[0]] + t[1..] == t;
        ContainsStep([t[0]] + Replace(t[1..], p, marker), marker);
        assert ([t[0]] + Replace(t[1..], p, marker))[1..] == Replace(t[1..], p, marker);
      }
    }
  }

  /** What a replaced text ends in, if a secret starts with it, is what the text ended in before. */
  lemma {:induction false} EndWasThere(t: string, p: string, marker: string, s: string, i: nat)
    requires p != "" && Off(s, marker) && 0 < i < |s|
    requires EndsWith(Replace(t, p, marker), s[..i])
    ensures EndsWith(t, s[..i])
    decreases |t|
  {
    assert t != "";
    ReplaceHead(t, p, marker);
    var n := if p <= t then |p| else 1;
    var head := if p <= t then marker else [t[0]];
    var rest := Replace(t[n..], p, marker);
    if i <= |rest| {
      EndOfLongText(head, rest, s[..i]);
      EndWasThere(t[n..], p, marker, s, i);
      EndOfSuffix(t, n, s[..i]);
    } else {
      EndReachesHead(head, rest, s, i);
      assert head != marker;
      RestIsOld(t[n..], p, marker, s, i);
      EndIsAll(t, s, i, rest);
    }
  }

  lemma RestIsOld(t: string, p: string, marker: string, s: string, i: nat)
    requires p != "" && Off(s, marker)
    requires var rest := Replace(t, p, marker); |rest| <= i <= |s| && s[i - |rest|..i] == rest
    ensures Replace(t, p, marker) == t
  {
    var rest := Replace(t, p, marker);
    ChangedOrNot(t, p, marker);
    if Contains(rest, marker) {
      ContainsInside(s, i - |rest|, i, marker);
    }
  }

  lemma EndIsAll(t: string, s: string, i: nat, rest: string)
    requires t != "" && t[1..] == rest && |rest| < i <= |s|
    requires EndsWith([t[0]], s[..i - |rest|]) && s[..i] == s[..i - |rest|] + rest
    ensures EndsWith(t, s[..i])
  {
    assert s[..i - |rest|] == [t[0]];
    assert t == [t[0]] + rest;
    assert t[0..] == t;
  }

  lemma EndOfLongText(head: string, rest: string, u: string)
    requires EndsWith(head + rest, u) && |u| <= |rest|
    ensures EndsWith(rest, u)
  {
    assert (head + rest)[|head + rest| - |u|..] == rest[|rest| - |u|..];
  }

  lemma EndOfSuffix(t: string, n: nat, u: string)
    requires n <= |t| && EndsWith(t[n..], u)
    ensures EndsWith(t, u)
  {
    assert t[n..][|t| - n - |u|..] == t[|t| - |u|..];
  }

  lemma EndReachesHead(head: string, rest: string, s: string, i: nat)
    requires |rest| < i <= |s| && EndsWith(head + rest, s[..i])
    ensures EndsWith(head, s[..i - |rest|]) && s[i - |rest|..i] == rest
    ensures s[..i] == s[..i - |rest|] + rest
  {
    var all := head + rest;
    var m := i - |rest|;
    assert s[..i] == all[|all| - i..];
    assert s[..i][..m] == s[..m] && all[|all| - i..][..m] == head[|head| - m..];
    assert s[..i][m..] == s[m..i] && all[|all| - i..][m..] == rest;
  }

  /** What a replaced text starts with, if a secret ends in it, is what the text started with before. */
  lemma {:induction false} StartWasThere(t: string, p: string, marker: string, s: string, i: nat)
    requires p != "" && Off(s, marker) && 0 < i <= |s|
    requires s[i..] <= Replace(t, p, marker)
    ensures s[i..] <= t
    decreases |t|
  {
    if i < |s| {
      assert t != "";
      ReplaceHead(t, p, marker);
      StartIsNoMarker(s, i, marker, Replace(t[if p <= t then |p| else 0..], p, marker));
      assert !(p <= t);
      var rest := Replace(t[1..], p, marker);
      assert s[i] == ([t[0]] + rest)[0] == t[0];
      assert s[i..][1..] == s[i + 1..] && ([t[0]] + rest)[1..] == rest;
      StartWasThere(t[1..], p, marker, s, i + 1);
      assert s[i..] == [s[i]] + s[i + 1..] && t == [t[0]] + t[1..];
    }
  }

  lemma StartIsNoMarker(s: string, i: nat, marker: string, rest: string)
    requires Off(s, marker) && 0 < i < |s|
    ensures !(s[i..] <= marker + rest)
  {
    if s[i..] <= marker + rest {
      OneIsPrefix(s[i..], marker, rest);
    }
  }

  lemma OneIsPrefix(v: string, a: string, b: string)
    requires v <= a + b
    ensures v <= a || a <= v
  {
    if |v| <= |a| {
      assert v == (a + b)[..|v|] == a[..|v|];
    } else {
      assert v[..|a|] == (a + b)[..|a|] == a;
    }
  }

  /** A border nothing lies across stays one. */
  lemma StayApart(a: string, b: string, p: string, marker: string, s: string)
    requires p != "" && Off(s, marker) && Apart(a, b, s)
    ensures Apart(Replace(a, p, marker), Replace(b, p, marker), s)
  {
    forall i | 0 < i < |s|
      ensures !(EndsWith(Replace(a, p, marker), s[..i]) && s[i..] <= Replace(b, p, marker))
    {
      if EndsWith(Replace(a, p, marker), s[..i]) && s[i..] <= Replace(b, p, marker) {
        EndWasThere(a, p, marker, s, i);
        StartWasThere(b, p, marker, s, i);
      }
    }
  }

  /** Nothing lies across the ends of a marker. */
  lemma MarkerIsApart(a: string, marker: string, b: string, s: string)
    requires Off(s, marker)
    ensures Apart(a, marker + b, s) && Apart(marker, b, s)
  {
    forall i | 0 < i < |s| ensures !(s[i..] <= marker + b) {
      StartIsNoMarker(s, i, marker, b);
    }
  }

  // ----- the first match

  /** Replacement handles a text up to the end of the first match, and then the rest. */
  lemma {:induction false} FirstMatch(t: string, p: string, rep: string) returns (x: string, u: string)
    requires p != "" && Contains(t, p)
    ensures t == x + (p + u) && !Contains(x, p)
    ensures Replace(t, p, rep) == x + (rep + Replace(u, p, rep))
  {
    ReplaceHead(t, p, rep);
    if p <= t {
      x, u := "", t[|p|..];
      PrefixAndRest(t, p);
      NothingBefore(p + u);
      NothingBefore(rep + Replace(u, p, rep));
    } else {
      ContainsStep(t, p);
      var y;
      y, u := FirstMatch(t[1..], p, rep);
      x := [t[0]] + y;
      FirstMatchStep(t, p, rep, y, u);
    }
  }

  lemma PrefixAndRest(t: string, p: string)
    requires p <= t
    ensures t == p + t[|p|..]
  {
  }

  lemma NothingBefore(t: string)
    ensures "" + t == t
  {
  }

  lemma FirstMatchStep(t: string, p: string, rep: string, y: string, u: string)
    requires p != "" && t != "" && !(p <= t)
    requires t[1..] == y + (p + u) && !Contains(y, p)
    requires Replace(t[1..], p, rep) == y + (rep + Replace(u, p, rep))
    ensures t == ([t[0]] + y) + (p + u) && !Contains([t[0]] + y, p)
    ensures Replace(t, p, rep) == ([t[0]] + y) + (rep + Replace(u, p, rep))
  {
    BeforeFirstMatch(t, p, y, u);
    ReplaceHead(t, p, rep);
    Associate([t[0]], y, rep + Replace(u, p, rep));
  }

  lemma BeforeFirstMatch(t: string, p: string, y: string, u: string)
    requires t != "" && !(p <= t) && t[1..] == y + (p + u) && !Contains(y, p)
    ensures t == ([t[0]] + y) + (p + u) && !Contains([t[0]] + y, p)
  {
    Associate([t[0]], y, p + u);
    assert t == [t[0]] + t[1..];
    StillNone(t[0], y, p, p + u);
  }

  lemma StillNone(c: char, y: string, p: string, rest: string)
    requires !Contains(y, p) && !(p <= [c] + (y + rest))
    ensures !Contains([c] + y, p)
  {
    ContainsStep([c] + y, p);
    assert ([c] + y)[1..] == y;
    assert [c] + (y + rest) == ([c] + y) + rest;
  }

  /** One replacement removes what it looks for, and brings back nothing that its marker is off and does
      not hold. */
  lemma {:induction false} ReplaceRemoves(t: string, p: string, marker: string, s: string)
    requires p != "" && s != "" && Off(s, marker) && !Contains(marker, s)
    requires s == p || !Contains(t, s)
    ensures !Contains(Replace(t, p, marker), s)
    decreases |t|
  {
    if !Contains(t, p) {
      SubNoMatch(MatchLiteral(p), marker, t);
    } else {
      var x, u := FirstMatch(t, p, marker);
      OutsideTheMatch(t, x, p, u, s);
      ReplaceRemoves(u, p, marker, s);
      MarkerIsApart(x, marker, Replace(u, p, marker), s);
      ContainsSplits(marker, Replace(u, p, marker), s);
      ContainsSplits(x, marker + Replace(u, p, marker), s);
    }
  }

  lemma OutsideTheMatch(t: string, x: string, p: string, u: string, s: string)
    requires p != "" && t == x + (p + u) && !Contains(x, p) && (s == p || !Contains(t, s))
    ensures !Contains(x, s) && (s == p || !Contains(u, s)) && |u| < |t|
  {
    assert t[0..|x|] == x && t[|x| + |p|..|t|] == u;
    if Contains(x, s) {
      ContainsInside(t, 0, |x|, s);
    }
    if Contains(u, s) {
      ContainsInside(t, |x| + |p|, |t|, s);
    }
  }
}
