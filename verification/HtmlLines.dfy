/** The line patterns of the stripper as grammars: what a line that matches is made of
    (docs_render.py). */
module HtmlLines {
  import opened Options
  import opened Text
  import opened FenceStrip

  ghost predicate Space(s: string) {
    All(IsSpace, s)
  }

  ghost predicate Without(stop: char -> bool, s: string) {
    forall i | 0 <= i < |s| :: !stop(s[i])
  }

  // ----- characters

  const LOWER := {
      'a', 'b', 'c', 'd', 'e', 'f', 'g', 'h', 'i', 'j', 'k', 'l', 'm',
      'n', 'o', 'p', 'q', 'r', 's', 't', 'u', 'v', 'w', 'x', 'y', 'z'}

  const UPPER := {
      'A', 'B', 'C', 'D', 'E', 'F', 'G', 'H', 'I', 'J', 'K', 'L', 'M',
      'N', 'O', 'P', 'Q', 'R', 'S', 'T', 'U', 'V', 'W', 'X', 'Y', 'Z'}

  const CASES := {
      ('A', 'a'), ('B', 'b'), ('C', 'c'), ('D', 'd'), ('E', 'e'), ('F', 'f'), ('G', 'g'),
      ('H', 'h'), ('I', 'i'), ('J', 'j'), ('K', 'k'), ('L', 'l'), ('M', 'm'), ('N', 'n'),
      ('O', 'o'), ('P', 'p'), ('Q', 'q'), ('R', 'r'), ('S', 's'), ('T', 't'), ('U', 'u'),
      ('V', 'v'), ('W', 'w'), ('X', 'x'), ('Y', 'y'), ('Z', 'z')}

  lemma LettersAre(c: char)
    ensures Letter(c) <==> c in LOWER || c in UPPER
  {
  }

  lemma SchemeCharsAre(c: char)
    ensures !SchemeEnd(c) <==>
      c in LOWER || c in UPPER || c in {'0', '1', '2', '3', '4', '5', '6', '7', '8', '9', '+', '.', '-'}
  {
    LettersAre(c);
  }

  /** What a lower-case letter of a pattern matches: itself, its capital, and the long s for an s. Any
      other character of a pattern matches itself. */
  lemma FoldingIs(c: char, p: char)
    requires p !in UPPER
    ensures SameLetter(c, p) <==> c == p || (c, p) in CASES || (p == 's' && c == '\U{017F}')
  {
    LowerCasesAre(c, p);
  }

  lemma LowerCasesAre(c: char, p: char)
    ensures (c, p) in CASES <==> 'a' <= p <= 'z' && c as int == p as int - 32
  {
    if 'a' <= p <= 'z' && c as int == p as int - 32 {
      assert c == (p as int - 32) as char;
    }
  }

  // ----- tags

  /** A letter, then no angle bracket, then the closing one. */
  ghost predicate TagBody(s: string) {
    |s| >= 2 && Letter(s[0]) && Without(Angle, s[..|s| - 1]) && s[|s| - 1] == '>'
  }

  ghost predicate IsOpenTag(s: string) {
    "<" <= s && TagBody(s[1..])
  }

  ghost predicate IsClosingTag(s: string) {
    "</" <= s && TagBody(s[2..])
  }

  ghost predicate IsTag(s: string) {
    IsOpenTag(s) || IsClosingTag(s)
  }

  lemma {:induction false} SpanPasses(stop: char -> bool, t: string)
    ensures Without(stop, t[..Span(stop, t)])
  {
    if t != "" && !stop(t[0]) {
      SpanPasses(stop, t[1..]);
      assert forall i | 0 < i < Span(stop, t) :: t[i] == t[1..][..Span(stop, t[1..])][i - 1];
    }
  }

  lemma {:induction false} SpanIs(stop: char -> bool, a: string, b: string)
    requires Without(stop, a) && (b == "" || stop(b[0]))
    ensures Span(stop, a + b) == |a|
  {
    if a == "" {
      assert a + b == b;
    } else {
      assert (a + b)[1..] == a[1..] + b;
      SpanIs(stop, a[1..], b);
    }
  }

  lemma TagRestMeaning(t: string, n: nat)
    requires 0 < n <= |t|
    ensures TagRest(t) == n <==> TagBody(t[..n])
  {
    SpanPasses(Angle, t);
    if TagBody(t[..n]) {
      var body := t[..n - 1];
      assert body == t[..n][..n - 1];
      SpanIs(Angle, body, t[n - 1..]);
      assert body + t[n - 1..] == t && t[n - 1] == t[..n][n - 1];
    }
    if TagRest(t) == n {
      assert t[..n][..n - 1] == t[..Span(Angle, t)];
    }
  }

  lemma OpenTagMeaning(t: string, n: nat)
    requires 0 < n <= |t|
    ensures OpenTag(t) == n <==> IsOpenTag(t[..n])
  {
    if "<" <= t {
      if n > 1 {
        TagRestMeaning(t[1..], n - 1);
        assert t[..n][1..] == t[1..][..n - 1];
      }
      if TagRest(t[1..]) == 0 && n > 1 {
        assert !TagBody(t[1..][..n - 1]);
      }
    }
  }

  lemma AnyTagMeaning(t: string, n: nat)
    requires 0 < n <= |t|
    ensures AnyTag(t) == n <==> IsTag(t[..n])
  {
    OpenTagMeaning(t, n);
    if "</" <= t {
      assert t[1..][0] == '/' && TagRest(t[1..]) == 0;
      if n > 2 {
        TagRestMeaning(t[2..], n - 2);
        assert t[..n][2..] == t[2..][..n - 2];
      }
    }
  }

  // ----- leading blanks

  lemma {:induction false} LeadSplits(t: string) returns (blanks: string)
    ensures t == blanks + Lead(t) && Space(blanks)
    ensures Lead(t) != "" ==> !IsSpace(Lead(t)[0])
  {
    if t != "" && IsSpace(t[0]) {
      var rest := LeadSplits(t[1..]);
      blanks := [t[0]] + rest;
    } else {
      blanks := "";
    }
  }

  lemma LeadIs(blanks: string, t: string)
    requires Space(blanks) && (t != "" ==> !IsSpace(t[0]))
    ensures Lead(blanks + t) == t
  {
    TrimLeftDrops(IsSpace, blanks, t);
  }

  lemma {:induction false} TrailSplits(t: string) returns (blanks: string)
    ensures t == TrimRight(IsSpace, t) + blanks && Space(blanks)
    ensures TrimRight(IsSpace, t) != "" ==> !IsSpace(TrimRight(IsSpace, t)[|TrimRight(IsSpace, t)| - 1])
  {
    if t != "" && IsSpace(t[|t| - 1]) {
      var front := TrailSplits(t[..|t| - 1]);
      blanks := front + [t[|t| - 1]];
      assert t == t[..|t| - 1] + [t[|t| - 1]];
    } else {
      blanks := "";
    }
  }

  lemma TrailIs(t: string, blanks: string)
    requires Space(blanks) && (t != "" ==> !IsSpace(t[|t| - 1]))
    ensures TrimRight(IsSpace, t + blanks) == t
  {
    TrimRightDrops(IsSpace, t, blanks);
  }

  // ----- lines of nothing but tags

  /** A tag and the blanks after it. */
  type Part = (string, string)

  ghost function Concat(parts: seq<Part>): string {
    if parts == [] then "" else parts[0].0 + parts[0].1 + Concat(parts[1..])
  }

  ghost predicate TagsAndBlanks(parts: seq<Part>) {
    forall k | 0 <= k < |parts| :: IsTag(parts[k].0) && Space(parts[k].1)
  }

  lemma {:induction false} OnlyTagsParts(t: string) returns (parts: seq<Part>)
    requires OnlyTags(t)
    ensures parts != [] && TagsAndBlanks(parts) && t == Concat(parts)
    decreases |t|
  {
    var n := AnyTag(t);
    AnyTagMeaning(t, n);
    TrimLeftLength(IsSpace, t[n..]);
    var blanks := LeadSplits(t[n..]);
    if Lead(t[n..]) == "" {
      parts := [(t[..n], blanks)];
      assert Concat(parts[1..]) == "";
    } else {
      var rest := OnlyTagsParts(Lead(t[n..]));
      parts := [(t[..n], blanks)] + rest;
      assert parts[1..] == rest;
    }
  }

  lemma {:induction false} PartsAreOnlyTags(parts: seq<Part>)
    requires parts != [] && TagsAndBlanks(parts)
    ensures OnlyTags(Concat(parts))
    decreases |parts|
  {
    var (tag, blanks) := parts[0];
    var rest := Concat(parts[1..]);
    var t := Concat(parts);
    assert IsTag(tag);
    assert t == tag + (blanks + rest) && t[..|tag|] == tag && t[|tag|..] == blanks + rest;
    AnyTagMeaning(t, |tag|);
    PartsStart(parts[1..]);
    LeadIs(blanks, rest);
    TrimLeftLength(IsSpace, t[|tag|..]);
    if |parts| > 1 {
      PartsAreOnlyTags(parts[1..]);
    }
  }

  lemma PartsStart(parts: seq<Part>)
    requires TagsAndBlanks(parts)
    ensures Concat(parts) == "" <==> parts == []
    ensures parts != [] ==> Concat(parts)[0] == '<'
  {
    if parts != [] {
      assert IsTag(parts[0].0) && parts[0].0[0] == '<';
    }
  }

  /** The line is blanks, then one tag or more with blanks after each. */
  ghost predicate MadeOfTags(line: string, blanks: string, parts: seq<Part>) {
    parts != [] && Space(blanks) && TagsAndBlanks(parts) && line == blanks + Concat(parts)
  }

  lemma HtmlOnlyMeaning(line: string)
    ensures HtmlOnly(line) <==> exists blanks, parts :: MadeOfTags(line, blanks, parts)
  {
    if HtmlOnly(line) {
      var blanks := LeadSplits(line);
      var parts := OnlyTagsParts(Lead(line));
      assert MadeOfTags(line, blanks, parts);
    }
    forall blanks, parts | MadeOfTags(line, blanks, parts) ensures HtmlOnly(line) {
      PartsStart(parts);
      LeadIs(blanks, Concat(parts));
      PartsAreOnlyTags(parts);
    }
  }

  // ----- autolinks

  /** `<scheme://rest>` with blanks around it. */
  ghost predicate MadeOfLink(line: string, before: string, scheme: string, rest: string, after: string) {
    && Space(before) && Space(after)
    && scheme != "" && Letter(scheme[0]) && Without(SchemeEnd, scheme)
    && rest != "" && Without(UrlEnd, rest)
    && line == before + ("<" + (scheme + ("://" + (rest + (">" + after)))))
  }

  lemma AutolinkMeaning(line: string)
    ensures Autolink(line) <==>
      exists before, scheme, rest, after :: MadeOfLink(line, before, scheme, rest, after)
  {
    if Autolink(line) {
      var before, scheme, rest, after := LinkParts(line);
      assert MadeOfLink(line, before, scheme, rest, after);
    }
    forall before, scheme, rest, after | MadeOfLink(line, before, scheme, rest, after) ensures Autolink(line) {
      PartsAreLink(line, before, scheme, rest, after);
    }
  }

  /** What follows the scheme, `://rest>` and blanks. */
  ghost predicate LinkTail(tail: string, rest: string, after: string) {
    && rest != "" && Without(UrlEnd, rest) && Space(after)
    && tail == "://" + (rest + (">" + after))
  }

  predicate EndsLink(tail: string) {
    && "://" <= tail
    && (var n := Span(UrlEnd, tail[3..]);
        && n > 0
        && ">" <= tail[3..][n..]
        && Lead(tail[3..][n + 1..]) == "")
  }

  lemma LinkParts(line: string) returns (before: string, scheme: string, rest: string, after: string)
    requires Autolink(line)
    ensures MadeOfLink(line, before, scheme, rest, after)
  {
    before := LeadSplits(line);
    var u := Lead(line)[1..];
    scheme, rest, after := AfterBracket(u);
    assert Lead(line) == "<" + u;
  }

  lemma AfterBracket(u: string) returns (scheme: string, rest: string, after: string)
    requires u != "" && Letter(u[0]) && EndsLink(u[Span(SchemeEnd, u)..])
    ensures scheme != "" && Letter(scheme[0]) && Without(SchemeEnd, scheme)
    ensures rest != "" && Without(UrlEnd, rest) && Space(after)
    ensures u == scheme + ("://" + (rest + (">" + after)))
  {
    var n := Span(SchemeEnd, u);
    scheme := u[..n];
    SpanPasses(SchemeEnd, u);
    rest, after := TailParts(u[n..]);
    assert u == scheme + u[n..];
  }

  lemma TailParts(tail: string) returns (rest: string, after: string)
    requires EndsLink(tail)
    ensures LinkTail(tail, rest, after)
  {
    var m := Span(UrlEnd, tail[3..]);
    rest, after := tail[3..][..m], tail[3..][m + 1..];
    SpanPasses(UrlEnd, tail[3..]);
    assert tail == "://" + (rest + (">" + after));
    var blanks := LeadSplits(after);
    assert blanks + "" == blanks;
  }

  lemma TailIsLink(tail: string, rest: string, after: string)
    requires LinkTail(tail, rest, after)
    ensures EndsLink(tail)
  {
    assert tail[3..] == rest + (">" + after);
    SpanIs(UrlEnd, rest, ">" + after);
    assert tail[3..][|rest|..] == ">" + after && tail[3..][|rest| + 1..] == after;
    LeadIs(after, "");
    assert after + "" == after;
  }

  lemma PartsAreLink(line: string, before: string, scheme: string, rest: string, after: string)
    requires MadeOfLink(line, before, scheme, rest, after)
    ensures Autolink(line)
  {
    var tail := "://" + (rest + (">" + after));
    var t := "<" + (scheme + tail);
    LeadIs(before, t);
    assert t[1..] == scheme + tail;
    SpanIs(SchemeEnd, scheme, tail);
    assert t[1..][|scheme|..] == tail && t[1] == scheme[0];
    TailIsLink(tail, rest, after);
  }

  // ----- lines wrapped in an element

  /** A tag, anything, and a closing tag, with blanks around them. */
  ghost predicate MadeOfElement(
    line: string, before: string, tag: string, inside: string, closing: string, after: string)
  {
    && Space(before) && Space(after) && IsOpenTag(tag) && IsClosingTag(closing)
    && line == before + (tag + ((inside + closing) + after))
  }

  lemma WrappedMeaning(line: string)
    ensures Wrapped(line) <==>
      exists before, tag, inside, closing, after :: MadeOfElement(line, before, tag, inside, closing, after)
  {
    if Wrapped(line) {
      var before, tag, inside, closing, after := ElementParts(line);
      assert MadeOfElement(line, before, tag, inside, closing, after);
    }
    forall before, tag, inside, closing, after | MadeOfElement(line, before, tag, inside, closing, after)
      ensures Wrapped(line)
    {
      PartsAreElement(line, before, tag, inside, closing, after);
    }
  }

  lemma ClosingTagMeaning(t: string)
    ensures ClosingTag(t) <==> IsClosingTag(t)
  {
    if "</" <= t && |t| > 2 {
      TagRestMeaning(t[2..], |t| - 2);
      assert t[2..][..|t| - 2] == t[2..];
    }
  }

  lemma ElementParts(line: string)
    returns (before: string, tag: string, inside: string, closing: string, after: string)
    requires Wrapped(line)
    ensures MadeOfElement(line, before, tag, inside, closing, after)
  {
    var t := Lead(line);
    before := LeadSplits(line);
    var n := OpenTag(t);
    OpenTagMeaning(t, n);
    tag := t[..n];
    inside, closing, after := InsideParts(t[n..]);
    assert t == tag + t[n..];
  }

  lemma InsideParts(t: string) returns (inside: string, closing: string, after: string)
    requires exists i | 0 <= i < |TrimRight(IsSpace, t)| :: ClosingTag(TrimRight(IsSpace, t)[i..])
    ensures t == (inside + closing) + after && IsClosingTag(closing) && Space(after)
  {
    after := TrailSplits(t);
    var body := TrimRight(IsSpace, t);
    var i :| 0 <= i < |body| && ClosingTag(body[i..]);
    ClosingTagMeaning(body[i..]);
    inside, closing := body[..i], body[i..];
    assert inside + closing == body;
  }

  lemma PartsAreElement(
    line: string, before: string, tag: string, inside: string, closing: string, after: string)
    requires MadeOfElement(line, before, tag, inside, closing, after)
    ensures Wrapped(line)
  {
    var body := inside + closing;
    var t := tag + (body + after);
    LeadIs(before, t);
    assert t[..|tag|] == tag && t[|tag|..] == body + after;
    OpenTagMeaning(t, |tag|);
    ClosingEnds(closing);
    TrailIs(body, after);
    ClosingTagMeaning(closing);
    assert body[|inside|..] == closing;
  }

  lemma ClosingEnds(closing: string)
    requires IsClosingTag(closing)
    ensures closing[|closing| - 1] == '>' && closing[0] == '<'
  {
    assert closing[2..][|closing| - 3] == closing[|closing| - 1];
  }

  // ----- summaries

  ghost predicate Folds(s: string, p: string) {
    |s| == |p| && StartsFolded(s, p)
  }

  /** `<summary ...>title</summary>` in any mix of cases, with blanks around it. */
  ghost predicate MadeOfSummary(
    line: string, before: string, open: string, attrs: string, title: string, closing: string, after: string)
  {
    && Space(before) && Space(after)
    && Folds(open, "<summary") && Without(Angle, attrs) && Folds(closing, "</summary>")
    && line == before + (open + (attrs + (">" + ((title + closing) + after))))
  }

  lemma SummaryMeaning(line: string, title: string)
    ensures Summary(line) == Some(title) <==>
      exists before, open, attrs, closing, after :: MadeOfSummary(line, before, open, attrs, title, closing, after)
  {
    if Summary(line) == Some(title) {
      var before, open, attrs, closing, after := SummaryParts(line, title);
      assert MadeOfSummary(line, before, open, attrs, title, closing, after);
    }
    forall before, open, attrs, closing, after | MadeOfSummary(line, before, open, attrs, title, closing, after)
      ensures Summary(line) == Some(title)
    {
      PartsAreSummary(line, before, open, attrs, title, closing, after);
    }
  }

  lemma FoldsPrefix(t: string, p: string)
    requires StartsFolded(t, p)
    ensures Folds(t[..|p|], p)
  {
  }

  lemma FoldsStart(s: string, p: string, rest: string)
    requires Folds(s, p)
    ensures StartsFolded(s + rest, p) && (s + rest)[|p|..] == rest
  {
  }

  lemma SummaryParts(line: string, title: string)
    returns (before: string, open: string, attrs: string, closing: string, after: string)
    requires Summary(line) == Some(title)
    ensures MadeOfSummary(line, before, open, attrs, title, closing, after)
  {
    var t := Lead(line);
    before := LeadSplits(line);
    open := t[..8];
    FoldsPrefix(t, "<summary");
    attrs, closing, after := AfterOpen(t[8..], title);
    assert t == open + t[8..];
  }

  lemma AfterOpen(u: string, title: string) returns (attrs: string, closing: string, after: string)
    requires var n := Span(Angle, u); ">" <= u[n..] && TitledBy(TrimRight(IsSpace, u[n + 1..]), title)
    ensures Without(Angle, attrs) && Folds(closing, "</summary>") && Space(after)
    ensures u == attrs + (">" + ((title + closing) + after))
  {
    var n := Span(Angle, u);
    attrs := u[..n];
    SpanPasses(Angle, u);
    closing, after := TitleParts(u[n + 1..], title);
    assert u == attrs + (">" + u[n + 1..]);
  }

  ghost predicate TitledBy(body: string, title: string) {
    |body| >= 10 && StartsFolded(body[|body| - 10..], "</summary>") && body[..|body| - 10] == title
  }

  lemma TitleParts(tail: string, title: string) returns (closing: string, after: string)
    requires TitledBy(TrimRight(IsSpace, tail), title)
    ensures tail == (title + closing) + after && Folds(closing, "</summary>") && Space(after)
  {
    after := TrailSplits(tail);
    var body := TrimRight(IsSpace, tail);
    closing := body[|body| - 10..];
    FoldsPrefix(closing, "</summary>");
    assert body[..|body| - 10] + closing == body;
  }

  lemma PartsAreSummary(
    line: string, before: string, open: string, attrs: string, title: string, closing: string, after: string)
    requires MadeOfSummary(line, before, open, attrs, title, closing, after)
    ensures Summary(line) == Some(title)
  {
    var tail := ">" + ((title + closing) + after);
    var t := open + (attrs + tail);
    LeadIs(before, t) by { FirstFolds(open, "<summary"); }
    FoldsStart(open, "<summary", attrs + tail);
    SpanIs(Angle, attrs, tail);
    assert (attrs + tail)[|attrs|..] == tail && (attrs + tail)[|attrs| + 1..] == (title + closing) + after;
    TitleIs(title, closing, after);
  }

  lemma TitleIs(title: string, closing: string, after: string)
    requires Folds(closing, "</summary>") && Space(after)
    ensures TitledBy(TrimRight(IsSpace, (title + closing) + after), title)
  {
    LastFolds(closing);
    TrailIs(title + closing, after);
    var body := title + closing;
    assert body[|body| - 10..] == closing && body[..|body| - 10] == title;
  }

  lemma FirstFolds(open: string, p: string)
    requires Folds(open, p) && "<" <= p
    ensures open[0] == '<'
  {
  }

  lemma LastFolds(closing: string)
    requires Folds(closing, "</summary>")
    ensures closing[9] == '>'
  {
  }

  // ----- lines that are no pattern

  /** A line that does not begin with an angle bracket, blanks aside, stays as it is. */
  lemma ProseStays(line: string, inFence: bool)
    requires !("<" <= Lead(line))
    ensures Outcome(line, inFence) == Some(line)
  {
  }

  /** Outside a fence too, a link stays, and so does a line that is not only tags, not wrapped in an
      element and no summary. */
  lemma OtherLinesStay(line: string, inFence: bool)
    requires Autolink(line) || (!HtmlOnly(line) && !Wrapped(line) && Summary(line) == None)
    ensures Outcome(line, inFence) == Some(line)
  {
  }

  /** A fence line is one that begins with either mark, blanks aside. */
  lemma FenceMeaning(line: string)
    ensures Fence(line) <==>
      exists blanks, mark, rest :: Begins(line, blanks, mark, rest) && (mark == "```" || mark == "~~~")
  {
    var before := LeadSplits(line);
    if Fence(line) {
      var mark := Lead(line)[..3];
      assert Lead(line) == mark + Lead(line)[3..];
      assert Begins(line, before, mark, Lead(line)[3..]);
    }
    forall blanks, mark, rest | Begins(line, blanks, mark, rest) && (mark == "```" || mark == "~~~")
      ensures Fence(line)
    {
      LeadIs(blanks, mark + rest);
    }
  }

  ghost predicate Begins(line: string, blanks: string, mark: string, rest: string) {
    Space(blanks) && line == blanks + (mark + rest)
  }

  /** Any other summary outside a fence becomes its text in bold, or an empty line if it has none. */
  lemma SummaryOutcome(line: string, title: string)
    requires !Fence(line) && !Autolink(line) && !HtmlOnly(line) && Summary(line) == Some(title)
    ensures Outcome(line, false) ==
      Some(if WithoutTags(title) == "" then "" else "**" + WithoutTags(title) + "**")
  {
  }

  // ----- text with tags in it

  /** A text, then tags, each with a text after it. */
  ghost predicate TagsAndTexts(first: string, parts: seq<Part>) {
    '<' !in first && forall k | 0 <= k < |parts| :: IsTag(parts[k].0) && '<' !in parts[k].1
  }

  ghost function TextsOf(parts: seq<Part>): string {
    if parts == [] then "" else parts[0].1 + TextsOf(parts[1..])
  }

  lemma {:induction false} SubKeepsText(text: string, rest: string)
    requires '<' !in text
    ensures SubAll(AnyTag, "", text + rest) == text + SubAll(AnyTag, "", rest)
  {
    if text == "" {
      assert text + rest == rest;
    } else {
      assert AnyTag(text + rest) == 0 && (text + rest)[1..] == text[1..] + rest;
      SubKeepsText(text[1..], rest);
    }
  }

  lemma SubDropsTag(tag: string, rest: string)
    requires IsTag(tag)
    ensures SubAll(AnyTag, "", tag + rest) == SubAll(AnyTag, "", rest)
  {
    var t := tag + rest;
    assert t[..|tag|] == tag && t[|tag|..] == rest;
    AnyTagMeaning(t, |tag|);
  }

  lemma {:induction false} SubOfParts(parts: seq<Part>)
    requires TagsAndTexts("", parts)
    ensures SubAll(AnyTag, "", Concat(parts)) == TextsOf(parts)
    decreases |parts|
  {
    if parts != [] {
      var (tag, text) := parts[0];
      var rest := Concat(parts[1..]);
      assert IsTag(tag) && Concat(parts) == tag + (text + rest);
      SubDropsTag(tag, text + rest);
      SubKeepsText(text, rest);
      SubOfParts(parts[1..]);
    }
  }

  /** Removing the tags of such a text leaves its texts, stripped. */
  lemma TagsAreRemoved(first: string, parts: seq<Part>)
    requires TagsAndTexts(first, parts)
    ensures WithoutTags(first + Concat(parts)) == Strip(first + TextsOf(parts))
  {
    SubKeepsText(first, Concat(parts));
    SubOfParts(parts);
  }

  // ----- lines that are one element

  /** An element around text and tags, with blanks around it. */
  datatype Element = Element(
    before: string, tag: string, first: string, parts: seq<Part>, closing: string, after: string)
  {
    ghost predicate Valid() {
      && Space(before) && Space(after) && IsOpenTag(tag) && IsClosingTag(closing)
      && TagsAndTexts(first, parts)
    }

    ghost function Inside(): string {
      first + Concat(parts)
    }

    ghost function Line(): string {
      before + (tag + ((Inside() + closing) + after))
    }

    /** What a reader is to see. */
    ghost function Text(): string {
      Strip(first + TextsOf(parts))
    }

    /** The line as blanks and tags with texts. */
    ghost function Parts(): seq<Part> {
      [(tag, first)] + (parts + [(closing, after)])
    }

    ghost predicate IsSummary() {
      StartsFolded(tag, "<summary") && Folds(closing, "</summary>")
    }
  }

  lemma {:induction false} ConcatSnoc(parts: seq<Part>, last: Part)
    ensures Concat(parts + [last]) == Concat(parts) + (last.0 + last.1)
    ensures TextsOf(parts + [last]) == TextsOf(parts) + last.1
  {
    if parts != [] {
      assert (parts + [last])[1..] == parts[1..] + [last];
      ConcatSnoc(parts[1..], last);
    } else {
      assert (parts + [last])[1..] == [];
    }
  }

  lemma ElementAsParts(e: Element)
    requires e.Valid()
    ensures TagsAndTexts(e.before, e.Parts())
    ensures e.Line() == e.before + Concat(e.Parts())
    ensures TextsOf(e.Parts()) == e.first + TextsOf(e.parts) + e.after
  {
    var rest := e.parts + [(e.closing, e.after)];
    assert e.Parts()[1..] == rest;
    ConcatSnoc(e.parts, (e.closing, e.after));
    BlanksHoldNoTag(e.before);
    BlanksHoldNoTag(e.after);
    assert e.tag + e.first + (Concat(e.parts) + (e.closing + e.after)) == e.tag + ((e.Inside() + e.closing) + e.after);
  }

  lemma BlanksHoldNoTag(s: string)
    requires Space(s)
    ensures '<' !in s
  {
  }

  lemma ElementText(e: Element)
    requires e.Valid()
    ensures WithoutTags(e.Line()) == e.Text()
  {
    ElementAsParts(e);
    TagsAreRemoved(e.before, e.Parts());
    TrimPadding(IsSpace, e.before, e.first + TextsOf(e.parts), e.after);
    assert e.before + (e.first + TextsOf(e.parts) + e.after) == e.before + (e.first + TextsOf(e.parts)) + e.after;
  }

  lemma {:induction false} BlankTexts(parts: seq<Part>)
    requires TagsAndTexts("", parts)
    ensures Space(TextsOf(parts)) <==> TagsAndBlanks(parts)
  {
    if parts != [] {
      var (tag, text) := parts[0];
      var rest := TextsOf(parts[1..]);
      BlankTexts(parts[1..]);
      assert Space(text + rest) <==> Space(text) && Space(rest) by { SpaceSplits(text, rest); }
      assert TagsAndBlanks(parts) <==> Space(text) && TagsAndBlanks(parts[1..]) by { MoreBlanks(parts); }
    }
  }

  lemma SpaceSplits(a: string, b: string)
    ensures Space(a + b) <==> Space(a) && Space(b)
  {
    assert Space(a + b) ==> forall i | 0 <= i < |b| :: b[i] == (a + b)[|a| + i];
    assert Space(a + b) ==> forall i | 0 <= i < |a| :: a[i] == (a + b)[i];
  }

  lemma MoreBlanks(parts: seq<Part>)
    requires parts != [] && IsTag(parts[0].0)
    ensures TagsAndBlanks(parts) <==> Space(parts[0].1) && TagsAndBlanks(parts[1..])
  {
    if Space(parts[0].1) && TagsAndBlanks(parts[1..]) {
      assert forall k | 0 < k < |parts| :: parts[k] == parts[1..][k - 1];
    }
  }

  /** An element is nothing but tags exactly when it has no text. */
  lemma ElementIsHtmlOnly(e: Element)
    requires e.Valid()
    ensures HtmlOnly(e.Line()) <==> e.Text() == ""
  {
    ElementText(e);
    ElementAsParts(e);
    HtmlOnlyMeaning(e.Line());
    TrimsToNothing(IsSpace, e.first + TextsOf(e.parts));
    if e.Text() == "" {
      SpaceSplits(e.first + TextsOf(e.parts), e.after);
      BlankTexts(e.Parts());
      assert MadeOfTags(e.Line(), e.before, e.Parts());
    }
    forall blanks, parts | MadeOfTags(e.Line(), blanks, parts) ensures e.Text() == "" {
      TagsOnlyHaveNoText(blanks, parts);
    }
  }

  lemma TagsOnlyHaveNoText(blanks: string, parts: seq<Part>)
    requires Space(blanks) && TagsAndBlanks(parts)
    ensures WithoutTags(blanks + Concat(parts)) == ""
  {
    BlanksHoldNoTag(blanks);
    forall k | 0 <= k < |parts| ensures '<' !in parts[k].1 {
      BlanksHoldNoTag(parts[k].1);
    }
    TagsAreRemoved(blanks, parts);
    BlankTexts(parts);
    SpaceSplits(blanks, TextsOf(parts));
    TrimsToNothing(IsSpace, blanks + TextsOf(parts));
  }

  /** No element is an autolink: a link has one opening bracket. */
  lemma ElementIsNoLink(e: Element)
    requires e.Valid()
    ensures !Autolink(e.Line())
  {
    AutolinkMeaning(e.Line());
    forall before, scheme, rest, after | MadeOfLink(e.Line(), before, scheme, rest, after) ensures false {
      OneBracket(e.Line(), before, scheme, rest, after);
      TwoBrackets(e);
    }
  }

  lemma OneBracket(line: string, before: string, scheme: string, rest: string, after: string)
    requires MadeOfLink(line, before, scheme, rest, after)
    ensures multiset(line)['<'] == 1
  {
    assert '<' !in before && '<' !in scheme && '<' !in rest && '<' !in after;
    assert '<' !in "://";
    assert multiset(line) == multiset(before) + multiset("<") + multiset(scheme) + multiset("://")
      + multiset(rest) + multiset(">") + multiset(after);
  }

  lemma TwoBrackets(e: Element)
    requires e.Valid()
    ensures multiset(e.Line())['<'] >= 2
  {
    ClosingEnds(e.closing);
    assert e.tag[0] in e.tag && e.closing[0] in e.closing;
    assert multiset(e.Line()) == multiset(e.before) + multiset(e.tag) + multiset(e.Inside()) + multiset(e.closing)
      + multiset(e.after);
  }

  /** A summary element is read as a summary, with everything inside it as its title. */
  lemma SummaryOfElement(e: Element)
    requires e.Valid() && e.IsSummary()
    ensures Summary(e.Line()) == Some(e.Inside())
  {
    var open, attrs := e.tag[..8], e.tag[8..|e.tag| - 1];
    FoldsPrefix(e.tag, "<summary");
    TagEnds(e.tag);
    assert e.tag == open + (attrs + ">");
    assert e.Line() == e.before + (open + (attrs + (">" + ((e.Inside() + e.closing) + e.after))));
    SummaryMeaning(e.Line(), e.Inside());
    assert MadeOfSummary(e.Line(), e.before, open, attrs, e.Inside(), e.closing, e.after);
  }

  lemma TagEnds(tag: string)
    requires IsOpenTag(tag) && |tag| > 8
    ensures tag[|tag| - 1] == '>' && Without(Angle, tag[8..|tag| - 1])
  {
    assert tag[1..][|tag| - 2] == tag[|tag| - 1];
    assert forall i | 8 <= i < |tag| - 1 :: tag[i] == tag[1..][..|tag| - 2][i - 1];
  }

  /** An element that is read as a summary is a summary element. */
  lemma ElementOfSummary(e: Element)
    requires e.Valid() && Summary(e.Line()).Some?
    ensures e.IsSummary()
  {
    var title := Summary(e.Line()).value;
    var before, open, attrs, closing, after := SummaryParts(e.Line(), title);
    SameTag(e, open, attrs, ">" + ((title + closing) + after), before);
    Regrouped(before, open, attrs, title, closing, after);
    SameClosing(e, before + (open + (attrs + (">" + title))), closing, after);
  }

  lemma Regrouped(before: string, open: string, attrs: string, title: string, closing: string, after: string)
    ensures before + (open + (attrs + (">" + ((title + closing) + after))))
      == (before + (open + (attrs + (">" + title)))) + (closing + after)
  {
    assert attrs + (">" + ((title + closing) + after)) == (attrs + (">" + title)) + (closing + after);
    assert open + ((attrs + (">" + title)) + (closing + after)) == (open + (attrs + (">" + title))) + (closing + after);
  }

  lemma SameTag(e: Element, open: string, attrs: string, rest: string, before: string)
    requires e.Valid() && Space(before) && Folds(open, "<summary") && Without(Angle, attrs) && ">" <= rest
    requires e.Line() == before + (open + (attrs + rest))
    ensures StartsFolded(e.tag, "<summary")
  {
    var tail := (e.Inside() + e.closing) + e.after;
    LeadIs(e.before, e.tag + tail);
    LeadIs(before, open + (attrs + rest)) by { FirstFolds(open, "<summary"); }
    var t := e.tag + tail;
    assert t == open + (attrs + rest);
    assert forall i | 0 <= i < |e.tag| :: e.tag[i] == t[i];
    assert t[|open| + |attrs|] == '>';
    TagReachesItsEnd(e.tag);
    assert forall i | 0 <= i < 8 :: t[i] == open[i];
  }

  /** In a tag the first closing bracket is the last character. */
  lemma TagReachesItsEnd(tag: string)
    requires IsOpenTag(tag)
    ensures tag[|tag| - 1] == '>'
    ensures forall i | 0 < i < |tag| - 1 :: !Angle(tag[i])
  {
    assert tag[1..][|tag| - 2] == tag[|tag| - 1];
    assert forall i | 1 <= i < |tag| - 1 :: tag[i] == tag[1..][..|tag| - 2][i - 1];
  }

  lemma SameClosing(e: Element, start: string, closing: string, after: string)
    requires e.Valid() && Folds(closing, "</summary>") && Space(after)
    requires e.Line() == start + (closing + after)
    ensures Folds(e.closing, "</summary>")
  {
    var own := e.before + (e.tag + e.Inside());
    assert e.Line() == (own + e.closing) + e.after && e.Line() == (start + closing) + after;
    ClosingEnds(e.closing);
    LastFolds(closing);
    TrailIs(own + e.closing, e.after);
    TrailIs(start + closing, after);
    SameEnd(own, e.closing, start, closing);
  }

  lemma SameEnd(own: string, tag: string, start: string, closing: string)
    requires IsClosingTag(tag) && Folds(closing, "</summary>") && own + tag == start + closing
    ensures tag == closing
  {
    var all := own + tag;
    assert tag[0] == '<' && closing[0] == '<';
    assert all[|own|] == '<' && all[|start|] == '<';
    assert all[|own|..] == tag && all[|start|..] == closing;
    if |own| < |start| {
      OneBracketInTag(tag, |start| - |own|);
    } else if |start| < |own| {
      OneBracketFolds(closing, |own| - |start|);
    }
  }

  lemma OneBracketInTag(tag: string, i: nat)
    requires IsClosingTag(tag) && 0 < i < |tag|
    ensures tag[i] != '<'
  {
    ClosingEnds(tag);
    assert forall k | 2 <= k < |tag| - 1 :: tag[k] == tag[2..][..|tag| - 3][k - 2];
  }

  lemma OneBracketFolds(closing: string, i: nat)
    requires Folds(closing, "</summary>") && 0 < i < 10
    ensures closing[i] != '<'
  {
    assert '<' !in "/summary>";
    assert "</summary>"[i] == "/summary>"[i - 1] && "/summary>"[i - 1] in "/summary>";
  }

  /** What becomes of a line outside a fence that is one element: nothing if it has no text, the text
      in bold if it is a summary, and the bare text otherwise. */
  lemma ElementOutcome(e: Element)
    requires e.Valid()
    ensures Outcome(e.Line(), false) ==
      if e.Text() == "" then None
      else if e.IsSummary() then Some("**" + e.Text() + "**")
      else Some(e.Text())
  {
    ElementIsNoLink(e);
    ElementIsHtmlOnly(e);
    ElementText(e);
    ElementIsWrapped(e);
    OutcomeOfWrapped(e.Line());
    if e.IsSummary() {
      SummaryOfElement(e);
      TagsAreRemoved(e.first, e.parts);
    } else if Summary(e.Line()).Some? {
      ElementOfSummary(e);
    }
  }

  lemma OutcomeOfWrapped(line: string)
    requires !Fence(line) && !Autolink(line) && Wrapped(line)
    ensures HtmlOnly(line) ==> Outcome(line, false) == None
    ensures !HtmlOnly(line) ==> match Summary(line)
      case None => WithoutTags(line) != "" ==> Outcome(line, false) == Some(WithoutTags(line))
      case Some(title) => Outcome(line, false) == Some(Bold(WithoutTags(title)))
  {
  }

  lemma ElementIsWrapped(e: Element)
    requires e.Valid()
    ensures Wrapped(e.Line()) && !Fence(e.Line())
  {
    WrappedMeaning(e.Line());
    assert MadeOfElement(e.Line(), e.before, e.tag, e.Inside(), e.closing, e.after);
    LeadIs(e.before, e.tag + ((e.Inside() + e.closing) + e.after));
  }
}
