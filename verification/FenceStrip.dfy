/** Dropping and unwrapping HTML lines of a document without touching its fenced code
    (docs_render.py). */
module FenceStrip {
  import opened Options
  import opened Text

  // ----- the line patterns. A line holds no line terminator, so `$` is its end.

  predicate Letter(c: char) {
    'a' <= c <= 'z' || 'A' <= c <= 'Z'
  }

  predicate Angle(c: char) {
    c == '<' || c == '>'
  }

  function Lead(line: string): string {
    TrimLeft(IsSpace, line)
  }

  /** `_FENCE` */
  predicate Fence(line: string) {
    "```" <= Lead(line) || "~~~" <= Lead(line)
  }

  /** The length of `[a-zA-Z][^<>]*>` at the start of `t`, 0 for no match. */
  function TagRest(t: string): (n: nat)
    ensures n <= |t|
  {
    if t == "" || !Letter(t[0]) then 0
    else
      var n := Span(Angle, t);
      if n < |t| && t[n] == '>' then n + 1 else 0
  }

  /** `<[a-zA-Z][^<>]*>` */
  function OpenTag(t: string): (n: nat)
    ensures n <= |t|
  {
    if "<" <= t && TagRest(t[1..]) > 0 then 1 + TagRest(t[1..]) else 0
  }

  /** `</?[a-zA-Z][^<>]*>`, which is also `_ANY_TAG` */
  function AnyTag(t: string): (n: nat)
    ensures n <= |t|
  {
    if "</" <= t && TagRest(t[2..]) > 0 then 2 + TagRest(t[2..]) else OpenTag(t)
  }

  /** `(?:</?[a-zA-Z][^<>]*>\s*)+$` */
  predicate OnlyTags(t: string)
    decreases |t|
  {
    var n := AnyTag(t);
    && n > 0
    && (TrimLeftLength(IsSpace, t[n..]);
        Lead(t[n..]) == "" || OnlyTags(Lead(t[n..])))
  }

  lemma {:induction false} TrimLeftLength(p: char -> bool, s: string)
    ensures |TrimLeft(p, s)| <= |s|
  {
    if s != "" && p(s[0]) {
      TrimLeftLength(p, s[1..]);
    }
  }

  /** `_HTML_ONLY_LINE` */
  predicate HtmlOnly(line: string) {
    OnlyTags(Lead(line))
  }

  predicate SchemeEnd(c: char) {
    !(Letter(c) || '0' <= c <= '9' || c == '+' || c == '.' || c == '-')
  }

  predicate UrlEnd(c: char) {
    Angle(c) || IsSpace(c)
  }

  /** `_AUTOLINK_LINE` */
  predicate Autolink(line: string) {
    var t := Lead(line);
    && |t| > 1 && t[0] == '<' && Letter(t[1])
    && (var rest := t[1..][Span(SchemeEnd, t[1..])..];
        && "://" <= rest
        && (var n := Span(UrlEnd, rest[3..]);
            && n > 0
            && ">" <= rest[3..][n..]
            && Lead(rest[3..][n + 1..]) == ""))
  }

  /** All of `t` is `</[a-zA-Z][^<>]*>`. */
  predicate ClosingTag(t: string) {
    "</" <= t && |t| > 2 && TagRest(t[2..]) == |t| - 2
  }

  /** `_WRAPPED_TEXT_LINE` */
  predicate Wrapped(line: string) {
    var t := Lead(line);
    var n := OpenTag(t);
    && n > 0
    && (var body := TrimRight(IsSpace, t[n..]);
        exists i | 0 <= i < |body| :: ClosingTag(body[i..]))
  }

  /** One character under `re.IGNORECASE`; `p` is lower case. The long s folds to s. */
  predicate SameLetter(c: char, p: char) {
    c == p || ('a' <= p <= 'z' && c as int == p as int - 32) || (p == 's' && c == '\U{017F}')
  }

  predicate StartsFolded(t: string, p: string) {
    |p| <= |t| && forall i | 0 <= i < |p| :: SameLetter(t[i], p[i])
  }

  /** `_SUMMARY_LINE`: the text of its group. */
  function Summary(line: string): Option<string> {
    var t := Lead(line);
    if !StartsFolded(t, "<summary") then None
    else
      var n := Span(Angle, t[8..]);
      if !(">" <= t[8..][n..]) then None
      else
        var body := TrimRight(IsSpace, t[8..][n + 1..]);
        if |body| >= 10 && StartsFolded(body[|body| - 10..], "</summary>")
        then Some(body[..|body| - 10]) else None
  }

  function WithoutTags(s: string): string {
    Strip(SubAll(AnyTag, "", s))
  }

  // ----- one line

  /** The line is prose wrapped in one HTML element and is replaced by its text. */
  predicate Caption(line: string) {
    && !Autolink(line) && !HtmlOnly(line)
    && Wrapped(line) && Summary(line).None? && WithoutTags(line) != ""
  }

  predicate Dropped(line: string) {
    !Autolink(line) && HtmlOnly(line)
  }

  predicate SummaryLine(line: string) {
    !Autolink(line) && !HtmlOnly(line) && Summary(line).Some?
  }

  function Bold(title: string): string {
    if title == "" then "" else "**" + title + "**"
  }

  /** What is written for a line, if anything. */
  function Outcome(line: string, inFence: bool): Option<string> {
    if Fence(line) || inFence then Some(line)
    else if Dropped(line) then None
    else if Caption(line) then Some(WithoutTags(line))
    else if SummaryLine(line) then Some(Bold(WithoutTags(Summary(line).value)))
    else Some(line)
  }

  // ----- the document

  /** The state a reader of the lines is left in: an odd number of fence lines went by. */
  function InFence(lines: seq<string>): bool {
    lines != [] && (InFence(lines[..|lines| - 1]) != Fence(lines[|lines| - 1]))
  }

  /** A line of the output, with the index of the line it comes from. */
  datatype Kept = Kept(origin: nat, text: string)

  function Survivors(lines: seq<string>): (s: seq<Kept>)
  {
    if lines == [] then []
    else
      var front := lines[..|lines| - 1];
      match Outcome(lines[|lines| - 1], InFence(front))
      case None => Survivors(front)
      case Some(text) => Survivors(front) + [Kept(|lines| - 1, text)]
  }

  function Texts(kept: seq<Kept>): (texts: seq<string>)
    ensures |texts| == |kept| && forall i | 0 <= i < |kept| :: texts[i] == kept[i].text
  {
    seq(|kept|, i requires 0 <= i < |kept| => kept[i].text)
  }

  /** `_strip_html_only_lines`, between `splitlines` and the final join. */
  method StripHtmlOnlyLines(lines: seq<string>) returns (kept: seq<string>)
    ensures kept == Texts(Survivors(lines))
  {
    kept := [];
    var inFence := false;
    for n := 0 to |lines|
      invariant inFence == InFence(lines[..n])
      invariant kept == Texts(Survivors(lines[..n]))
    {
      SurvivorsStep(lines, n);
      if Fence(lines[n]) {
        inFence := !inFence;
        kept := kept + [lines[n]];
        continue;
      }
      if !inFence {
        var text := StripOutside(lines[n]);
        if text.Some? {
          kept := kept + [text.value];
        }
        continue;
      }
      kept := kept + [lines[n]];
    }
    assert lines[..|lines|] == lines;
  }

  /** The part of the loop body for a line outside a fence that is no fence itself. */
  method StripOutside(line: string) returns (text: Option<string>)
    requires !Fence(line)
    ensures text == Outcome(line, false)
  {
    if Autolink(line) {
      return Some(line);
    }
    if HtmlOnly(line) {
      return None;
    }
    var summary := Summary(line);
    if Wrapped(line) && summary.None? {
      var caption := WithoutTags(line);
      if caption != "" {
        return Some(caption);
      }
    }
    if summary.Some? {
      var title := WithoutTags(summary.value);
      return Some(if title != "" then "**" + title + "**" else "");
    }
    text := Some(line);
  }

  lemma SurvivorsStep(lines: seq<string>, n: nat)
    requires n < |lines|
    ensures InFence(lines[..n + 1]) == (InFence(lines[..n]) != Fence(lines[n]))
    ensures var outcome := Outcome(lines[n], InFence(lines[..n]));
      Texts(Survivors(lines[..n + 1])) == Texts(Survivors(lines[..n])) + (if outcome.Some? then [outcome.value] else [])
  {
    assert lines[..n + 1][..n] == lines[..n];
    TextsStep(lines[..n + 1]);
  }

  // ----- nothing is reordered, repeated or eaten

  lemma {:induction false} OriginsIncrease(lines: seq<string>)
    ensures forall j | 0 <= j < |Survivors(lines)| :: Survivors(lines)[j].origin < |lines|
    ensures forall j, k | 0 <= j < k < |Survivors(lines)| :: Survivors(lines)[j].origin < Survivors(lines)[k].origin
  {
    if lines != [] {
      OriginsIncrease(lines[..|lines| - 1]);
    }
  }

  /** Every written line is what its own source line calls for, and every source line that calls
      for something is written. With OriginsIncrease: once, and in order. */
  lemma {:induction false} EachLineGetsItsOutcome(lines: seq<string>, i: nat)
    requires i < |lines|
    ensures forall k | k in Survivors(lines) && k.origin == i :: Outcome(lines[i], InFence(lines[..i])) == Some(k.text)
    ensures Outcome(lines[i], InFence(lines[..i])).Some? ==>
      Kept(i, Outcome(lines[i], InFence(lines[..i])).value) in Survivors(lines)
  {
    var front := lines[..|lines| - 1];
    OriginsIncrease(front);
    if i < |front| {
      EachLineGetsItsOutcome(front, i);
      assert front[..i] == lines[..i];
    }
  }

  /** Fence lines and the lines between fences survive verbatim, each exactly once. */
  lemma FencedCodeIsUntouched(lines: seq<string>, i: nat)
    requires i < |lines| && (Fence(lines[i]) || InFence(lines[..i]))
    ensures exists j ::
      && 0 <= j < |Survivors(lines)| && Survivors(lines)[j] == Kept(i, lines[i])
      && forall k | 0 <= k < |Survivors(lines)| && k != j :: Survivors(lines)[k].origin != i
  {
    EachLineGetsItsOutcome(lines, i);
    OriginsIncrease(lines);
    var j :| 0 <= j < |Survivors(lines)| && Survivors(lines)[j] == Kept(i, lines[i]);
  }

  /** The only lines that vanish are HTML-only lines outside a fence, and of those all. */
  lemma WhatVanishes(lines: seq<string>, i: nat)
    requires i < |lines|
    ensures (forall k | k in Survivors(lines) :: k.origin != i)
      <==> !Fence(lines[i]) && !InFence(lines[..i]) && HtmlOnly(lines[i]) && !Autolink(lines[i])
  {
    EachLineGetsItsOutcome(lines, i);
  }

  // ----- the output is fenced where the input is

  /** The line, met in this state, is a caption whose text is a fence. */
  predicate OpensByCaption(line: string, inFence: bool) {
    !Fence(line) && !inFence && Caption(line) && Fence(WithoutTags(line))
  }

  /** No line is such, in the state in which it is met. */
  ghost predicate Never(event: (string, bool) -> bool, lines: seq<string>) {
    forall i | 0 <= i < |lines| :: !event(lines[i], InFence(lines[..i]))
  }

  ghost predicate LineAgrees(lines: seq<string>, j: int) {
    && 0 <= j < |Survivors(lines)| && Survivors(lines)[j].origin < |lines|
    && InFence(Texts(Survivors(lines)[..j])) == InFence(lines[..Survivors(lines)[j].origin])
  }

  ghost predicate LinesAgree(lines: seq<string>) {
    forall j | 0 <= j < |Survivors(lines)| :: LineAgrees(lines, j)
  }

  /** Every written line, and the end of the output, finds a reader in the same state as its
      source line found a reader of the input. */
  ghost predicate SameStatus(lines: seq<string>) {
    LinesAgree(lines) && InFence(Texts(Survivors(lines))) == InFence(lines)
  }

  /** The stripper never moves code out of a fence or prose into one, except exactly when it
      unwraps a caption to text that is itself a fence. */
  lemma {:induction false} FenceSafety(lines: seq<string>)
    ensures SameStatus(lines) <==> Never(OpensByCaption, lines)
  {
    if lines != [] {
      FenceSafety(lines[..|lines| - 1]);
      StatusStep(lines);
      NeverStep(OpensByCaption, lines);
    }
  }

  lemma NeverStep(event: (string, bool) -> bool, lines: seq<string>)
    requires lines != []
    ensures var front := lines[..|lines| - 1];
      Never(event, lines) <==> Never(event, front) && !event(lines[|lines| - 1], InFence(front))
  {
    var front := lines[..|lines| - 1];
    assert forall i | 0 <= i < |front| :: front[i] == lines[i] && front[..i] == lines[..i];
    if Never(event, lines) {
      forall i | 0 <= i < |front| ensures !event(front[i], InFence(front[..i])) {
        assert !event(lines[i], InFence(lines[..i]));
      }
    }
  }

  lemma BoldIsNoFence(title: string)
    ensures !Fence(Bold(title))
  {
    if title != "" {
      assert Bold(title)[0] == '*';
    }
  }

  /** Outside a fence only a caption can turn a line that is no fence into one. */
  lemma OutcomeFence(line: string, inFence: bool)
    requires Outcome(line, inFence).Some?
    ensures Fence(Outcome(line, inFence).value) <==>
      Fence(line) || (!inFence && Caption(line) && Fence(WithoutTags(line)))
  {
    if !Fence(line) && !inFence && SummaryLine(line) {
      BoldIsNoFence(WithoutTags(Summary(line).value));
    }
  }

  lemma InFenceSnoc(lines: seq<string>, line: string)
    ensures InFence(lines + [line]) <==> InFence(lines) != Fence(line)
  {
    assert (lines + [line])[..|lines|] == lines;
  }

  lemma LineAgreesBefore(front: seq<string>, lines: seq<string>, j: nat)
    requires lines != [] && front == lines[..|lines| - 1] && j < |Survivors(front)|
    ensures LineAgrees(lines, j) <==> LineAgrees(front, j)
  {
    OriginsIncrease(front);
    assert Survivors(lines)[..j] == Survivors(front)[..j];
    assert lines[..Survivors(front)[j].origin] == front[..Survivors(front)[j].origin];
  }

  lemma LineAgreesLast(front: seq<string>, lines: seq<string>)
    requires lines != [] && front == lines[..|lines| - 1] && |Survivors(front)| < |Survivors(lines)|
    ensures LineAgrees(lines, |Survivors(front)|) <==> InFence(Texts(Survivors(front))) == InFence(front)
  {
    assert Survivors(lines)[..|Survivors(front)|] == Survivors(front);
  }

  lemma LinesAgreeStep(front: seq<string>, lines: seq<string>)
    requires lines != [] && front == lines[..|lines| - 1]
    ensures LinesAgree(lines) <==>
      && LinesAgree(front)
      && (Outcome(lines[|front|], InFence(front)).Some? ==> InFence(Texts(Survivors(front))) == InFence(front))
  {
    var m := |Survivors(front)|;
    forall j | 0 <= j < m ensures LineAgrees(lines, j) <==> LineAgrees(front, j) {
      LineAgreesBefore(front, lines, j);
    }
    if m < |Survivors(lines)| {
      LineAgreesLast(front, lines);
    }
  }

  lemma StatusStep(lines: seq<string>)
    requires lines != []
    ensures var front := lines[..|lines| - 1];
      SameStatus(lines) <==> SameStatus(front) && !OpensByCaption(lines[|lines| - 1], InFence(front))
  {
    var front, line := lines[..|lines| - 1], lines[|lines| - 1];
    LinesAgreeStep(front, lines);
    var outcome := Outcome(line, InFence(front));
    TextsStep(lines);
    if outcome.Some? {
      OutcomeFence(line, InFence(front));
      InFenceSnoc(Texts(Survivors(front)), outcome.value);
    }
  }

  lemma TextsStep(lines: seq<string>)
    requires lines != []
    ensures var front := lines[..|lines| - 1];
      var outcome := Outcome(lines[|lines| - 1], InFence(front));
      Texts(Survivors(lines)) == Texts(Survivors(front)) + if outcome.Some? then [outcome.value] else []
  {
  }

  /** Such a caption exists: any fence text without an opening bracket, wrapped in a paragraph. */
  lemma ACaptionCanOpenAFence(text: string)
    requires text != "" && Tight(IsSpace, text) && '<' !in text && Fence(text)
    ensures OpensByCaption("<p>" + text + "</p>", false)
  {
    var line := "<p>" + text + "</p>";
    WrappedFence(line, text);
  }

  lemma WrappedFence(line: string, text: string)
    requires line == "<p>" + text + "</p>"
    requires text != "" && Tight(IsSpace, text) && '<' !in text && Fence(text)
    ensures !Fence(line) && Caption(line) && WithoutTags(line) == text
  {
    assert line[0] == '<' && line[1] == 'p' && line[2] == '>';
    StartIsNoScheme(line);
    CaptionIsWrapped(line, text);
    TextOfCaption(line, text);
    TrimOfTight(IsSpace, text);
    NoSummary(line);
  }

  lemma NoSummary(line: string)
    requires |line| > 1 && Lead(line) == line && line[1] == 'p'
    ensures Summary(line).None?
  {
    assert "<summary"[1] == 's';
  }

  lemma OneLetterTag(t: string)
    requires |t| >= 2 && Letter(t[0]) && t[1] == '>'
    ensures TagRest(t) == 2
  {
    assert !Angle(t[0]) && Angle(t[1]);
    assert Span(Angle, t[1..]) == 0;
    assert Span(Angle, t) == 1;
  }

  lemma StartIsNoScheme(line: string)
    requires |line| > 2 && line[0] == '<' && line[1] == 'p' && line[2] == '>'
    ensures Lead(line) == line && !Autolink(line) && OpenTag(line) == AnyTag(line) == 3 && !Fence(line)
  {
    assert Lead(line) == line;
    OneLetterTag(line[1..]);
    assert Span(SchemeEnd, line[1..][1..]) == 0;
    assert Span(SchemeEnd, line[1..]) == 1;
    assert line[1..][1..][0] == '>';
  }

  lemma CaptionIsWrapped(line: string, text: string)
    requires line == "<p>" + text + "</p>" && Lead(line) == line && OpenTag(line) == AnyTag(line) == 3
    requires text != "" && !IsSpace(text[0]) && '<' !in text
    ensures Wrapped(line) && !HtmlOnly(line)
  {
    var body := line[3..];
    assert body == text + "</p>";
    assert Lead(body) == body && TrimRight(IsSpace, body) == body && body[0] == text[0];
    assert body[|text|..] == "</p>";
    assert "</p>"[2..] == "p>";
    OneLetterTag("p>");
    assert ClosingTag(body[|text|..]);
    assert AnyTag(body) == 0 && !OnlyTags(body);
    assert !OnlyTags(line);
  }

  lemma {:induction false} PlainStart(a: string, b: string)
    requires '<' !in a
    ensures SubAll(AnyTag, "", a + b) == a + SubAll(AnyTag, "", b)
  {
    if a == "" {
      assert a + b == b;
    } else {
      assert (a + b)[1..] == a[1..] + b && (a + b)[0] == a[0];
      PlainStart(a[1..], b);
      PlainChar(a + b);
      assert a == [a[0]] + a[1..];
    }
  }

  lemma PlainChar(t: string)
    requires t != "" && t[0] != '<'
    ensures SubAll(AnyTag, "", t) == [t[0]] + SubAll(AnyTag, "", t[1..])
  {
    assert AnyTag(t) == 0;
  }

  lemma TagGoes(tag: string, b: string)
    requires AnyTag(tag + b) == |tag| > 0
    ensures SubAll(AnyTag, "", tag + b) == SubAll(AnyTag, "", b)
  {
    assert (tag + b)[|tag|..] == b;
  }

  lemma TextOfCaption(line: string, text: string)
    requires line == "<p>" + text + "</p>" && AnyTag(line) == 3 && '<' !in text
    ensures SubAll(AnyTag, "", line) == text
  {
    assert line == "<p>" + (text + "</p>");
    TagGoes("<p>", text + "</p>");
    PlainStart(text, "</p>");
    ClosingGoes("</p>");
  }

  lemma ClosingGoes(tag: string)
    requires tag == "</p>"
    ensures SubAll(AnyTag, "", tag) == ""
  {
    assert tag[2..] == "p>";
    OneLetterTag(tag[2..]);
    assert tag + "" == tag;
    TagGoes(tag, "");
  }

  // ----- the toggle and section 4.5 of CommonMark 0.31.2

  /** What a CommonMark reader is in, block containers aside. */
  datatype Code = Closed | Open(mark: char, length: nat)

  predicate NotSpace(c: char) {
    c != ' '
  }

  function Unindented(line: string): string {
    line[Span(NotSpace, line)..]
  }

  function Marks(mark: char, t: string): nat {
    Span(c => c != mark, t)
  }

  /** The line starts with a fence: at most three spaces, then at least three of one mark. */
  predicate Delimits(line: string, mark: char) {
    Span(NotSpace, line) <= 3 && mark in "`~" && Marks(mark, Unindented(line)) >= 3
  }

  function Info(line: string, mark: char): string
    requires Marks(mark, Unindented(line)) <= |Unindented(line)|
  {
    Unindented(line)[Marks(mark, Unindented(line))..]
  }

  predicate OpensCode(line: string, mark: char) {
    Delimits(line, mark) && (mark == '`' ==> '`' !in Info(line, mark))
  }

  predicate ClosesCode(line: string, mark: char, length: nat) {
    && Delimits(line, mark) && Marks(mark, Unindented(line)) >= length
    && forall c | c in Info(line, mark) :: c == ' ' || c == '\t'
  }

  function ReadLine(state: Code, line: string): Code {
    match state
    case Closed =>
      if OpensCode(line, '`') then Open('`', Marks('`', Unindented(line)))
      else if OpensCode(line, '~') then Open('~', Marks('~', Unindented(line)))
      else Closed
    case Open(mark, length) => if ClosesCode(line, mark, length) then Closed else state
  }

  function ReadLines(lines: seq<string>): Code {
    if lines == [] then Closed else ReadLine(ReadLines(lines[..|lines| - 1]), lines[|lines| - 1])
  }

  lemma {:induction false} SpanIsAll(stop: char -> bool, t: string, p: string)
    requires forall i | 0 <= i < |p| :: !stop(p[i])
    requires p <= t
    ensures Span(stop, t) >= |p|
  {
    if p != "" {
      SpanIsAll(stop, t[1..], p[1..]);
    }
  }

  lemma {:induction false} SpanStarts(stop: char -> bool, t: string)
    ensures forall i | 0 <= i < Span(stop, t) :: !stop(t[i])
  {
    if t != "" && !stop(t[0]) {
      SpanStarts(stop, t[1..]);
      assert forall i | 1 <= i < Span(stop, t) :: t[i] == t[1..][i - 1];
    }
  }

  /** Whatever the standard takes for a fence, the pattern matches. */
  lemma DelimitersAreFences(line: string, mark: char)
    requires Delimits(line, mark)
    ensures Fence(line)
  {
    var n := Span(NotSpace, line);
    SpanStarts(NotSpace, line);
    assert line == line[..n] + Unindented(line);
    TrimLeftDrops(IsSpace, line[..n], Unindented(line));
    StartsWithMarks(Unindented(line), mark);
  }

  lemma StartsWithMarks(t: string, mark: char)
    requires mark in "`~" && Marks(mark, t) >= 3
    ensures Lead(t) == t && ("```" <= t || "~~~" <= t)
  {
    SpanStarts(c => c != mark, t);
    assert t[..3] == [mark, mark, mark];
  }

  /** The line, where it stands, is an opening or a closing fence for the standard. */
  ghost predicate Turns(lines: seq<string>, i: int) {
    0 <= i < |lines| && ReadLine(ReadLines(lines[..i]), lines[i]).Open? != ReadLines(lines[..i]).Open?
  }

  /** The toggle agrees with the standard on every prefix exactly when every line the pattern
      matches is a fence for the standard where it stands. */
  lemma ToggleAgrees(lines: seq<string>)
    ensures (forall n | 0 <= n <= |lines| :: ReadLines(lines[..n]).Open? == InFence(lines[..n]))
      <==> (forall i | 0 <= i < |lines| && Fence(lines[i]) :: Turns(lines, i))
  {
    if forall i | 0 <= i < |lines| && Fence(lines[i]) :: Turns(lines, i) {
      forall n | 0 <= n <= |lines| ensures ReadLines(lines[..n]).Open? == InFence(lines[..n]) {
        AgreesUpTo(lines, n);
      }
    } else {
      var i :| 0 <= i < |lines| && Fence(lines[i]) && !Turns(lines, i);
      PrefixStep(lines, i);
    }
  }

  lemma PrefixStep(lines: seq<string>, i: nat)
    requires i < |lines|
    ensures ReadLines(lines[..i + 1]) == ReadLine(ReadLines(lines[..i]), lines[i])
    ensures InFence(lines[..i + 1]) == (InFence(lines[..i]) != Fence(lines[i]))
  {
    assert lines[..i + 1][..i] == lines[..i];
  }

  lemma {:induction false} MarksStayMarks(lines: seq<string>)
    ensures ReadLines(lines).Open? ==> ReadLines(lines).mark in "`~" && ReadLines(lines).length >= 3
  {
    if lines != [] {
      MarksStayMarks(lines[..|lines| - 1]);
    }
  }

  lemma OnlyFencesTurn(state: Code, line: string)
    requires !Fence(line)
    ensures ReadLine(state, line) == state
  {
    if Delimits(line, '`') { DelimitersAreFences(line, '`'); }
    if Delimits(line, '~') { DelimitersAreFences(line, '~'); }
    if state.Open? && Delimits(line, state.mark) { DelimitersAreFences(line, state.mark); }
  }

  lemma {:induction false} AgreesUpTo(lines: seq<string>, n: nat)
    requires n <= |lines| && forall i | 0 <= i < |lines| && Fence(lines[i]) :: Turns(lines, i)
    ensures ReadLines(lines[..n]).Open? == InFence(lines[..n])
  {
    if n > 0 {
      AgreesUpTo(lines, n - 1);
      PrefixStep(lines, n - 1);
      if !Fence(lines[n - 1]) {
        OnlyFencesTurn(ReadLines(lines[..n - 1]), lines[n - 1]);
      }
    }
  }

  /** Every fence of the document is written with the same mark in the same number, indented by
      at most three spaces, and one met inside a fence carries no info string. */
  ghost predicate SingleForm(lines: seq<string>, mark: char, length: nat) {
    && mark in "`~"
    && forall i | 0 <= i < |lines| && Fence(lines[i]) ::
      && OpensCode(lines[i], mark) && Marks(mark, Unindented(lines[i])) == length
      && (InFence(lines[..i]) ==> ClosesCode(lines[i], mark, length))
  }

  lemma OneMark(line: string, mark: char)
    requires OpensCode(line, mark)
    ensures ReadLine(Closed, line) == Open(mark, Marks(mark, Unindented(line)))
  {
    SpanStarts(c => c != '`', Unindented(line));
    SpanStarts(c => c != '~', Unindented(line));
    assert OpensCode(line, '`') ==> Unindented(line)[0] == '`';
    assert OpensCode(line, '~') ==> Unindented(line)[0] == '~';
  }

  /** On a document with a single fence form the toggle is the standard's state. */
  lemma {:induction false} SingleFormAgrees(lines: seq<string>, mark: char, length: nat)
    requires SingleForm(lines, mark, length)
    ensures ReadLines(lines) == if InFence(lines) then Open(mark, length) else Closed
  {
    if lines != [] {
      var front, line := lines[..|lines| - 1], lines[|lines| - 1];
      assert forall i | 0 <= i < |front| :: front[i] == lines[i] && front[..i] == lines[..i];
      SingleFormAgrees(front, mark, length);
      if !Fence(line) {
        OnlyFencesTurn(ReadLines(front), line);
      } else {
        assert lines[..|front|] == front;
        OneMark(line, mark);
      }
    }
  }

  /** So what such a document shows as code, by the standard's reading, is never touched. */
  lemma CodeBlocksSurvive(lines: seq<string>, mark: char, length: nat, i: nat)
    requires SingleForm(lines, mark, length) && i < |lines| && ReadLines(lines[..i]).Open?
    ensures Kept(i, lines[i]) in Survivors(lines)
  {
    assert forall k | 0 <= k < i :: lines[..i][k] == lines[k] && lines[..i][..k] == lines[..k];
    SingleFormAgrees(lines[..i], mark, length);
    FencedCodeIsUntouched(lines, i);
  }
}
