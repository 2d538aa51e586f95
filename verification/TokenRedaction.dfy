/** Redaction of a recorded exchange: key-shaped and long opaque runs in every string of a
    nested document (scripts/dev/record_anthropic_oauth_exchange.py). */
module TokenRedaction {
  import opened Options
  import opened Text
  import opened JsonValues

  const REDACTED := "<REDACTED>"
  const KEY_PREFIX := "sk-ant-"
  const LONG: nat := 40

  /** `[A-Za-z0-9_-]` */
  predicate TokenChar(c: char) {
    'A' <= c <= 'Z' || 'a' <= c <= 'z' || '0' <= c <= '9' || c == '_' || c == '-'
  }

  /** The length of the token run a text starts with. */
  function Run(t: string): (n: nat)
    ensures n <= |t|
    ensures forall i | 0 <= i < n :: TokenChar(t[i])
    ensures n < |t| ==> !TokenChar(t[n])
  {
    if t != "" && TokenChar(t[0]) then 1 + Run(t[1..]) else 0
  }

  /** `sk-ant-[A-Za-z0-9_-]+` */
  function KeyMatch(t: string): (n: nat)
    ensures n <= |t|
  {
    if KEY_PREFIX <= t && Run(t[|KEY_PREFIX|..]) > 0 then |KEY_PREFIX| + Run(t[|KEY_PREFIX|..]) else 0
  }

  /** `[A-Za-z0-9_-]{40,}` */
  function LongMatch(t: string): (n: nat)
    ensures n <= |t|
  {
    if Run(t) >= LONG then Run(t) else 0
  }

  function KeySub(s: string): string {
    SubAll(KeyMatch, REDACTED, s)
  }

  function LongSub(s: string): string {
    SubAll(LongMatch, REDACTED, s)
  }

  /** `redact_text` */
  function RedactText(s: string): string {
    LongSub(KeySub(s))
  }

  // ----- nothing is left

  /** No `sk-ant-` is followed by a token character. */
  ghost predicate NoKey(s: string) {
    forall i | 0 <= i < |s| :: KeyMatch(s[i..]) == 0
  }

  /** No run of forty token characters. */
  ghost predicate NoLongRun(s: string) {
    forall i | 0 <= i < |s| :: Run(s[i..]) < LONG
  }

  ghost predicate Clean(s: string) {
    NoKey(s) && NoLongRun(s)
  }

  lemma {:induction false} RunReaches(t: string, n: nat)
    requires n <= |t| && forall i | 0 <= i < n :: TokenChar(t[i])
    ensures Run(t) >= n
  {
    if n > 0 {
      RunReaches(t[1..], n - 1);
    }
  }

  /** A key start is a text of eight characters. */
  lemma KeyMatchShape(t: string)
    ensures KeyMatch(t) > 0 <==> |t| > 7 && KEY_PREFIX + [t[7]] <= t && TokenChar(t[7])
  {
    if |t| > 7 && KEY_PREFIX <= t {
      assert t[..8] == KEY_PREFIX + [t[7]];
    }
  }

  lemma TokenCharsAre(c: char)
    ensures TokenChar(c) <==> c in {
      'a', 'b', 'c', 'd', 'e', 'f', 'g', 'h', 'i', 'j', 'k', 'l', 'm',
      'n', 'o', 'p', 'q', 'r', 's', 't', 'u', 'v', 'w', 'x', 'y', 'z',
      'A', 'B', 'C', 'D', 'E', 'F', 'G', 'H', 'I', 'J', 'K', 'L', 'M',
      'N', 'O', 'P', 'Q', 'R', 'S', 'T', 'U', 'V', 'W', 'X', 'Y', 'Z',
      '0', '1', '2', '3', '4', '5', '6', '7', '8', '9', '_', '-'}
  {
  }

  /** The text says `sk-ant-` at `i`, with a token character after it. */
  ghost predicate KeyAt(s: string, i: int) {
    0 <= i && i + 7 < |s| && "sk-ant-" <= s[i..] && TokenChar(s[i + 7])
  }

  /** Forty characters from `i` on are token characters. */
  ghost predicate FortyAt(s: string, i: int) {
    0 <= i && i + 40 <= |s| && forall k | i <= k < i + 40 :: TokenChar(s[k])
  }

  /** A text is clean when it has neither. */
  lemma CleanMeaning(s: string)
    ensures Clean(s) <==> forall i :: !KeyAt(s, i) && !FortyAt(s, i)
  {
    forall i | 0 <= i < |s| ensures KeyMatch(s[i..]) > 0 <==> KeyAt(s, i) {
      KeyStart(s, i);
    }
    forall i | 0 <= i < |s| ensures Run(s[i..]) >= LONG <==> FortyAt(s, i) {
      RunOfForty(s, i);
    }
  }

  lemma KeyStart(s: string, i: nat)
    requires i < |s|
    ensures KeyMatch(s[i..]) > 0 <==> KeyAt(s, i)
  {
    var t := s[i..];
    if |t| > 7 {
      assert t[7..][0] == t[7] == s[i + 7];
    }
  }

  lemma RunOfForty(s: string, i: nat)
    requires i < |s|
    ensures Run(s[i..]) >= 40 <==> FortyAt(s, i)
  {
    var t := s[i..];
    assert forall k | 0 <= k < |t| :: t[k] == s[i + k];
    if FortyAt(s, i) {
      assert forall k | 0 <= k < 40 :: TokenChar(t[k]);
      RunReaches(t, 40);
    }
    if Run(t) >= 40 {
      assert forall k | i <= k < i + 40 :: s[k] == t[k - i];
    }
  }

  lemma NoTokenInMarker(s: string)
    requires |s| > 7 && forall c | c in s :: TokenChar(c)
    requires |s| >= LONG || KEY_PREFIX <= s
    ensures !Contains(REDACTED, s)
  {
    assert s[0] in s && (KEY_PREFIX <= s ==> s[0] == 's');
    assert !TokenChar(REDACTED[0]) && 's' !in REDACTED;
    forall i | 0 <= i <= |REDACTED| ensures !(s <= REDACTED[i..]) {
      assert |s| < LONG && i < |REDACTED| ==> REDACTED[i..][0] == REDACTED[i];
    }
  }

  lemma LongSubClears(s: string)
    ensures NoLongRun(LongSub(s))
  {
    var out := LongSub(s);
    forall i | 0 <= i < |out| ensures Run(out[i..]) < LONG {
      if Run(out[i..]) >= LONG {
        var word := out[i..][..LONG];
        assert word <= out[i..];
        LongWordsMatch(word);
        AlwaysMatchedIsGone(LongMatch, s, word);
      }
    }
  }

  lemma AlwaysMatchedIsGone(m: string -> nat, s: string, word: string)
    requires forall t :: m(t) <= |t|
    requires |word| == LONG && forall i | 0 <= i < LONG :: TokenChar(word[i])
    requires forall t: string | word <= t :: m(t) > 0
    ensures !Contains(SubAll(m, REDACTED, s), word)
  {
    NoTokenInMarker(word);
    if Contains(SubAll(m, REDACTED, s), word) {
      SubIntroducesNothing(m, REDACTED, s, word);
      assert false;
    }
  }

  lemma LongWordsMatch(word: string)
    requires |word| == LONG && forall i | 0 <= i < LONG :: TokenChar(word[i])
    ensures forall t: string | word <= t :: LongMatch(t) > 0
  {
    forall t: string | word <= t ensures LongMatch(t) > 0 {
      RunReaches(t, LONG);
    }
  }

  lemma KeySubClears(s: string)
    ensures NoKey(KeySub(s))
  {
    var out := KeySub(s);
    forall i | 0 <= i < |out| ensures KeyMatch(out[i..]) == 0 {
      KeyMatchShape(out[i..]);
      if KeyMatch(out[i..]) > 0 {
        KeyWasThere(KeyMatch, s, out[i..][7]);
      }
    }
  }

  /** A key start in the output of either substitution was in the input. */
  lemma {:induction false} KeyWasThere(m: string -> nat, s: string, c: char)
    requires forall t :: m(t) <= |t|
    requires TokenChar(c) && Contains(SubAll(m, REDACTED, s), KEY_PREFIX + [c])
    ensures exists k :: 0 <= k < |s| && KeyMatch(s[k..]) > 0 && m(s[k..]) == 0
  {
    var word := KEY_PREFIX + [c];
    NoTokenInMarker(word);
    SubIntroducesNothing(m, REDACTED, s, word);
    var k :| 0 <= k < |s| && word <= s[k..] && m(s[k..]) == 0;
    KeyMatchShape(s[k..]);
  }

  lemma LongSubKeepsKeysOut(s: string)
    requires NoKey(s)
    ensures NoKey(LongSub(s))
  {
    var out := LongSub(s);
    forall i | 0 <= i < |out| ensures KeyMatch(out[i..]) == 0 {
      KeyMatchShape(out[i..]);
      if KeyMatch(out[i..]) > 0 {
        KeyWasThere(LongMatch, s, out[i..][7]);
      }
    }
  }

  /** Nothing that looks like a credential is left in redacted text. */
  lemma RedactTextCleans(s: string)
    ensures Clean(RedactText(s))
  {
    KeySubClears(s);
    LongSubKeepsKeysOut(KeySub(s));
    LongSubClears(KeySub(s));
  }

  /** Redaction changes a text exactly when there is something to redact. */
  lemma FixedPoints(s: string)
    ensures RedactText(s) == s <==> Clean(s)
  {
    RedactTextCleans(s);
    if Clean(s) {
      SubNoMatch(KeyMatch, REDACTED, s);
      SubNoMatch(LongMatch, REDACTED, s);
    }
  }

  lemma RedactTextTwice(s: string)
    ensures RedactText(RedactText(s)) == RedactText(s)
  {
    RedactTextCleans(s);
    FixedPoints(RedactText(s));
  }

  // ----- and nothing else is touched

  /** A match never looks past a character that is not a token character. */
  ghost predicate WordWise(m: string -> nat) {
    && (forall t :: m(t) <= |t|)
    && (forall sep: char, b: string | !TokenChar(sep) :: m([sep] + b) == 0)
    && (forall a: string, sep: char, b: string | !TokenChar(sep) :: m(a + [sep] + b) == m(a))
  }

  lemma {:induction false} RunStops(a: string, sep: char, b: string)
    requires !TokenChar(sep)
    ensures Run(a + [sep] + b) == Run(a)
  {
    if a != "" {
      assert (a + [sep] + b)[1..] == a[1..] + [sep] + b;
      RunStops(a[1..], sep, b);
    }
  }

  lemma PrefixStops(a: string, sep: char, b: string, p: string)
    requires sep !in p
    ensures p <= a + [sep] + b <==> p <= a
  {
    LongPrefixReadsOn(a, sep, b, p);
    assert (a + [sep] + b)[..|a|] == a;
  }

  lemma LongPrefixReadsOn(a: string, sep: char, b: string, p: string)
    ensures p <= a + [sep] + b && |p| > |a| ==> sep in p
  {
    if p <= a + [sep] + b && |p| > |a| {
      assert p[|a|] == (a + [sep] + b)[|a|] == sep;
    }
  }

  lemma KeyMatchIsWordWise()
    ensures WordWise(KeyMatch)
  {
    forall sep: char, b: string | !TokenChar(sep) ensures KeyMatch([sep] + b) == 0 {
      assert ([sep] + b)[0] == sep && TokenChar(KEY_PREFIX[0]);
    }
    forall a: string, sep: char, b: string | !TokenChar(sep) ensures KeyMatch(a + [sep] + b) == KeyMatch(a) {
      KeyMatchStops(a, sep, b);
    }
  }

  lemma KeyMatchStops(a: string, sep: char, b: string)
    requires !TokenChar(sep)
    ensures KeyMatch(a + [sep] + b) == KeyMatch(a)
  {
    PrefixStops(a, sep, b, KEY_PREFIX);
    if KEY_PREFIX <= a {
      assert (a + [sep] + b)[|KEY_PREFIX|..] == a[|KEY_PREFIX|..] + [sep] + b;
      RunStops(a[|KEY_PREFIX|..], sep, b);
    }
  }

  lemma LongMatchIsWordWise()
    ensures WordWise(LongMatch)
  {
    forall sep: char, b: string | !TokenChar(sep) ensures LongMatch([sep] + b) == 0 {
      assert ([sep] + b)[0] == sep;
    }
    forall a: string, sep: char, b: string | !TokenChar(sep) ensures LongMatch(a + [sep] + b) == LongMatch(a) {
      RunStops(a, sep, b);
    }
  }

  lemma {:induction false} SubByWord(m: string -> nat, rep: string, a: string, sep: char, b: string)
    requires WordWise(m) && !TokenChar(sep)
    ensures SubAll(m, rep, a + [sep] + b) == SubAll(m, rep, a) + [sep] + SubAll(m, rep, b)
    decreases |a|
  {
    if a == "" {
      SubSeparator(m, rep, sep, b);
      assert a + [sep] + b == [sep] + b;
    } else {
      var n := if m(a) > 0 then m(a) else 1;
      SubByWord(m, rep, a[n..], sep, b);
      assert m(a + [sep] + b) == m(a);
      SubByWordStep(m, rep, a, sep, b, n);
    }
  }

  lemma SubSeparator(m: string -> nat, rep: string, sep: char, b: string)
    requires forall t :: m(t) <= |t|
    requires m([sep] + b) == 0
    ensures SubAll(m, rep, [sep] + b) == SubAll(m, rep, "") + [sep] + SubAll(m, rep, b)
  {
    assert ([sep] + b)[1..] == b;
    assert SubAll(m, rep, "") == "";
  }

  lemma SubByWordStep(m: string -> nat, rep: string, a: string, sep: char, b: string, n: nat)
    requires forall t :: m(t) <= |t|
    requires a != "" && m(a + [sep] + b) == m(a) && n == if m(a) > 0 then m(a) else 1
    requires SubAll(m, rep, a[n..] + [sep] + b) == SubAll(m, rep, a[n..]) + [sep] + SubAll(m, rep, b)
    ensures SubAll(m, rep, a + [sep] + b) == SubAll(m, rep, a) + [sep] + SubAll(m, rep, b)
  {
    var whole := a + [sep] + b;
    assert whole[n..] == a[n..] + [sep] + b && whole[0] == a[0];
    SubHead(m, rep, a);
    SubHead(m, rep, whole);
    Reassociate(if m(a) > 0 then rep else [a[0]], SubAll(m, rep, a[n..]), [sep], SubAll(m, rep, b));
  }

  lemma Reassociate(a: string, b: string, c: string, d: string)
    ensures a + (b + c + d) == (a + b) + c + d
  {
  }

  /** The words of a text, that is what stands between characters that are not token
      characters, are redacted independently, and the separators stay. */
  lemma RedactsWordByWord(a: string, sep: char, b: string)
    requires !TokenChar(sep)
    ensures RedactText(a + [sep] + b) == RedactText(a) + [sep] + RedactText(b)
  {
    KeyMatchIsWordWise();
    LongMatchIsWordWise();
    SubByWord(KeyMatch, REDACTED, a, sep, b);
    SubByWord(LongMatch, REDACTED, KeySub(a), sep, KeySub(b));
  }

  ghost predicate Word(w: string) {
    forall i | 0 <= i < |w| :: TokenChar(w[i])
  }

  /** A key starts in the word at `k`, and none before. */
  ghost predicate FirstKey(w: string, k: int) {
    0 <= k < |w| && KeyMatch(w[k..]) > 0 && forall i | 0 <= i < k :: KeyMatch(w[i..]) == 0
  }

  function LongOrKept(w: string): string {
    if |w| >= LONG then REDACTED else w
  }

  lemma KeySubOfWord(w: string, k: nat)
    requires Word(w) && FirstKey(w, k)
    ensures KeySub(w) == w[..k] + REDACTED
  {
    KeyToTheEnd(w[k..]);
    FirstMatchToTheEnd(KeyMatch, REDACTED, w, k);
  }

  /** Where the first match runs to the end, it is all that is replaced. */
  lemma {:induction false} FirstMatchToTheEnd(m: string -> nat, rep: string, w: string, k: nat)
    requires forall t :: m(t) <= |t|
    requires k < |w| && m(w[k..]) == |w| - k && forall i | 0 <= i < k :: m(w[i..]) == 0
    ensures SubAll(m, rep, w) == w[..k] + rep
    decreases k
  {
    assert w[0..] == w;
    if k == 0 {
      OneMatch(m, rep, w);
    } else {
      assert forall i | 0 <= i < k :: w[1..][i..] == w[i + 1..];
      FirstMatchToTheEnd(m, rep, w[1..], k - 1);
      assert [w[0]] + w[1..] == w && m(w[0..]) == 0;
      NoMatchHere(m, rep, w[0], w[1..], k - 1);
    }
  }

  lemma NoMatchHere(m: string -> nat, rep: string, c: char, rest: string, k: nat)
    requires forall t :: m(t) <= |t|
    requires k <= |rest| && m([c] + rest) == 0 && SubAll(m, rep, rest) == rest[..k] + rep
    ensures SubAll(m, rep, [c] + rest) == ([c] + rest)[..k + 1] + rep
  {
    SubHead(m, rep, [c] + rest);
    assert ([c] + rest)[1..] == rest;
    assert ([c] + rest)[..k + 1] == [c] + rest[..k];
    assert [c] + (rest[..k] + rep) == ([c] + rest[..k]) + rep;
  }

  lemma SubHead(m: string -> nat, rep: string, s: string)
    requires forall t :: m(t) <= |t|
    requires s != ""
    ensures var n := if m(s) > 0 then m(s) else 1;
      SubAll(m, rep, s) == (if m(s) > 0 then rep else [s[0]]) + SubAll(m, rep, s[n..])
  {
  }

  lemma KeyToTheEnd(w: string)
    requires Word(w) && KeyMatch(w) > 0
    ensures KeyMatch(w) == |w|
  {
    RunReaches(w[|KEY_PREFIX|..], |w| - |KEY_PREFIX|);
  }

  lemma OneMatch(m: string -> nat, rep: string, w: string)
    requires forall t :: m(t) <= |t|
    requires w != "" && m(w) == |w|
    ensures SubAll(m, rep, w) == rep
  {
    assert w[|w|..] == "" && SubAll(m, rep, "") == "";
  }

  lemma LongSubOfWord(w: string)
    requires Word(w)
    ensures LongSub(w) == LongOrKept(w)
  {
    RunReaches(w, |w|);
    if |w| >= LONG {
      OneMatch(LongMatch, REDACTED, w);
    } else {
      SubNoMatch(LongMatch, REDACTED, w);
    }
  }

  /** Text between angle brackets is a word of its own. */
  lemma SubBeforeBrackets(m: string -> nat, rep: string, w: string, inner: string)
    requires WordWise(m) && SubAll(m, rep, inner) == inner
    ensures SubAll(m, rep, w + ("<" + inner + ">")) == SubAll(m, rep, w) + ("<" + inner + ">")
  {
    SubByWord(m, rep, w, '<', inner + ">");
    SubAtTheEnd(m, rep, inner);
    Reassociate(w, "<", inner, ">");
    Reassociate(SubAll(m, rep, w), "<", inner, ">");
    assert w + ("<" + inner + ">") == w + ['<'] + (inner + ">");
  }

  lemma SubAtTheEnd(m: string -> nat, rep: string, inner: string)
    requires WordWise(m) && SubAll(m, rep, inner) == inner
    ensures SubAll(m, rep, inner + ">") == inner + ">"
  {
    SubByWord(m, rep, inner, '>', "");
    assert inner + ">" + "" == inner + ">";
    assert SubAll(m, rep, "") == "";
  }

  lemma LongSubBeforeBrackets(w: string, inner: string)
    requires Word(w) && Word(inner) && |inner| < LONG
    ensures LongSub(w + ("<" + inner + ">")) == LongOrKept(w) + ("<" + inner + ">")
  {
    LongMatchIsWordWise();
    LongSubOfWord(w);
    LongSubOfWord(inner);
    SubBeforeBrackets(LongMatch, REDACTED, w, inner);
  }

  lemma LongSubBeforeMarker(w: string)
    requires Word(w)
    ensures LongSub(w + REDACTED) == LongOrKept(w) + REDACTED
  {
    assert Word("REDACTED");
    LongSubBeforeBrackets(w, "REDACTED");
    assert REDACTED == "<" + "REDACTED" + ">";
  }

  /** What becomes of one word: a key and all that follows it in the word is one marker, what
      precedes the key and a word without a key is kept unless it is long. */
  lemma RedactedWord(w: string)
    requires Word(w)
    ensures NoKey(w) ==> RedactText(w) == LongOrKept(w)
    ensures forall k | FirstKey(w, k) :: RedactText(w) == LongOrKept(w[..k]) + REDACTED
  {
    if NoKey(w) {
      SubNoMatch(KeyMatch, REDACTED, w);
      LongSubOfWord(w);
    }
    forall k | FirstKey(w, k) ensures RedactText(w) == LongOrKept(w[..k]) + REDACTED {
      KeySubOfWord(w, k);
      LongSubBeforeMarker(w[..k]);
    }
  }

  // ----- nested documents

  /** `redact` */
  function Redact(value: Json): Json {
    match value
    case Str(text) => Str(RedactText(text))
    case List(items) => List(seq(|items|, i requires 0 <= i < |items| => Redact(items[i])))
    case Dict(entries) =>
      Dict(seq(|entries|, i requires 0 <= i < |entries| => (entries[i].0, Redact(entries[i].1))))
    case Scalar(_) => value
  }

  /** Every string value at every depth is clean. */
  ghost predicate AllClean(value: Json) {
    match value
    case Str(text) => Clean(text)
    case List(items) => forall i | 0 <= i < |items| :: AllClean(items[i])
    case Dict(entries) => forall i | 0 <= i < |entries| :: AllClean(entries[i].1)
    case Scalar(_) => true
  }

  /** The values differ at most in their string values. */
  ghost predicate SameShape(a: Json, b: Json) {
    match a
    case Str(_) => b.Str?
    case List(items) =>
      b.List? && |b.items| == |items| && forall i | 0 <= i < |items| :: SameShape(items[i], b.items[i])
    case Dict(entries) =>
      && b.Dict? && |b.entries| == |entries|
      && forall i | 0 <= i < |entries| :: entries[i].0 == b.entries[i].0 && SameShape(entries[i].1, b.entries[i].1)
    case Scalar(_) => a == b
  }

  /** The lift to documents: every string value is redacted, and nothing else changes. */
  lemma {:induction false} RedactCleans(value: Json)
    ensures AllClean(Redact(value)) && SameShape(value, Redact(value))
  {
    match value
    case Str(text) => RedactTextCleans(text);
    case List(items) =>
      forall i | 0 <= i < |items|
        ensures AllClean(Redact(items[i])) && SameShape(items[i], Redact(items[i]))
      {
        RedactCleans(items[i]);
      }
    case Dict(entries) =>
      forall i | 0 <= i < |entries|
        ensures AllClean(Redact(entries[i].1)) && SameShape(entries[i].1, Redact(entries[i].1))
      {
        RedactCleans(entries[i].1);
      }
    case Scalar(_) =>
  }

  /** The part of a document that a path of positions leads to. */
  ghost function At(value: Json, path: seq<nat>): Option<Json>
    decreases |path|
  {
    if path == [] then Some(value)
    else
      match value
      case List(items) => if path[0] < |items| then At(items[path[0]], path[1..]) else None
      case Dict(entries) => if path[0] < |entries| then At(entries[path[0]].1, path[1..]) else None
      case _ => None
  }

  /** Wherever a document holds a string, its redaction holds that string redacted; where it holds any
      other scalar, the same; and it has a part exactly where the document has one. */
  lemma {:induction false} RedactedAt(value: Json, path: seq<nat>)
    ensures match At(value, path)
      case None => At(Redact(value), path) == None
      case Some(Str(text)) => At(Redact(value), path) == Some(Str(RedactText(text)))
      case Some(Scalar(_)) => At(Redact(value), path) == At(value, path)
      case Some(part) => At(Redact(value), path).Some? && SameShape(part, At(Redact(value), path).value)
    decreases |path|
  {
    if path == [] {
      RedactCleans(value);
    } else {
      match value
      case List(items) => if path[0] < |items| { RedactedAt(items[path[0]], path[1..]); }
      case Dict(entries) => if path[0] < |entries| { RedactedAt(entries[path[0]].1, path[1..]); }
      case _ =>
    }
  }

  /** A document is left alone exactly when it is clean. */
  lemma {:induction false} RedactFixedPoints(value: Json)
    ensures Redact(value) == value <==> AllClean(value)
  {
    match value
    case Str(text) => FixedPoints(text);
    case List(items) =>
      forall i | 0 <= i < |items| ensures Redact(items[i]) == items[i] <==> AllClean(items[i]) {
        RedactFixedPoints(items[i]);
      }
      if Redact(value) == value {
        assert forall i | 0 <= i < |items| :: Redact(value).items[i] == items[i];
      } else {
        assert Redact(value).items != items;
      }
    case Dict(entries) =>
      forall i | 0 <= i < |entries| ensures Redact(entries[i].1) == entries[i].1 <==> AllClean(entries[i].1) {
        RedactFixedPoints(entries[i].1);
      }
      if Redact(value) == value {
        assert forall i | 0 <= i < |entries| :: Redact(value).entries[i] == entries[i];
      } else {
        assert Redact(value).entries != entries;
      }
    case Scalar(_) =>
  }

  lemma RedactTwice(value: Json)
    ensures Redact(Redact(value)) == Redact(value)
  {
    RedactCleans(value);
    RedactFixedPoints(Redact(value));
  }

  // ----- headers and the fixture

  const SECRET_HEADERS := {"authorization", "x-api-key", "cookie", "proxy-authorization"}
  const SESSION_HEADERS := {
    "x-claude-code-session-id", "x-claude-code-agent-id", "x-claude-code-parent-agent-id"
  }

  type Headers = seq<(string, string)>

  predicate Hidden(name: string) {
    name in SECRET_HEADERS || name in SESSION_HEADERS
  }

  lemma HiddenNamesAre(name: string)
    ensures Hidden(name) <==>
      name in {
        "authorization", "x-api-key", "cookie", "proxy-authorization", "x-claude-code-session-id",
        "x-claude-code-agent-id", "x-claude-code-parent-agent-id"}
  {
  }

  ghost predicate LastOfItsName(lower: string -> string, headers: Headers, i: int) {
    0 <= i < |headers| && forall j | i < j < |headers| :: lower(headers[j].0) != lower(headers[i].0)
  }

  function HeaderValue(name: string, value: string): string {
    if Hidden(name) then REDACTED else RedactText(value)
  }

  function HeadersOut(lower: string -> string, headers: Headers): map<string, string> {
    if headers == [] then map[]
    else
      var (name, value) := headers[|headers| - 1];
      HeadersOut(lower, headers[..|headers| - 1])[lower(name) := HeaderValue(lower(name), value)]
  }

  /** `redact_headers`: `lower` is `str.lower`. */
  method RedactHeaders(lower: string -> string, headers: Headers) returns (out: map<string, string>)
    ensures out == HeadersOut(lower, headers)
    ensures forall name | name in out :: Clean(out[name]) && (Hidden(name) ==> out[name] == REDACTED)
  {
    out := map[];
    for n := 0 to |headers|
      invariant out == HeadersOut(lower, headers[..n])
    {
      assert headers[..n + 1][..n] == headers[..n];
      var lowered := lower(headers[n].0);
      if Hidden(lowered) {
        out := out[lowered := REDACTED];
      } else {
        out := out[lowered := RedactText(headers[n].1)];
      }
    }
    assert headers[..|headers|] == headers;
    HeadersAreClean(lower, headers);
  }

  /** The headers written are the last of every name, each hidden by name or redacted by value. */
  lemma {:induction false} LastOfANameWins(lower: string -> string, headers: Headers, i: int)
    requires LastOfItsName(lower, headers, i)
    ensures lower(headers[i].0) in HeadersOut(lower, headers)
    ensures HeadersOut(lower, headers)[lower(headers[i].0)] == HeaderValue(lower(headers[i].0), headers[i].1)
  {
    if i < |headers| - 1 {
      assert lower(headers[|headers| - 1].0) != lower(headers[i].0);
      LastOfANameWins(lower, headers[..|headers| - 1], i);
    }
  }

  /** No header is dropped and none invented. */
  lemma {:induction false} HeaderNames(lower: string -> string, headers: Headers, name: string)
    ensures name in HeadersOut(lower, headers) <==> exists i :: 0 <= i < |headers| && lower(headers[i].0) == name
  {
    if headers != [] {
      var front, last := headers[..|headers| - 1], headers[|headers| - 1];
      HeaderNames(lower, front, name);
      assert name in HeadersOut(lower, headers) <==> name in HeadersOut(lower, front) || lower(last.0) == name;
      if name in HeadersOut(lower, front) {
        var i :| 0 <= i < |front| && lower(front[i].0) == name;
        assert lower(headers[i].0) == name;
      }
      if i :| 0 <= i < |front| && lower(headers[i].0) == name {
        assert lower(front[i].0) == name;
      }
    }
  }

  lemma {:induction false} HeadersAreClean(lower: string -> string, headers: Headers)
    ensures forall name | name in HeadersOut(lower, headers) ::
      Clean(HeadersOut(lower, headers)[name]) && (Hidden(name) ==> HeadersOut(lower, headers)[name] == REDACTED)
  {
    if headers != [] {
      HeadersAreClean(lower, headers[..|headers| - 1]);
      RedactTextCleans(headers[|headers| - 1].1);
      MarkerIsClean();
    }
  }

  lemma MarkerIsClean()
    ensures Clean(REDACTED)
  {
    LongSubBeforeMarker("");
    assert "" + REDACTED == REDACTED;
    KeySubOfMarker();
    FixedPoints(REDACTED);
  }

  lemma KeySubOfMarker()
    ensures KeySub(REDACTED) == REDACTED
  {
    forall i | 0 <= i < |REDACTED| ensures KeyMatch(REDACTED[i..]) == 0 {
      assert REDACTED[i..][0] == REDACTED[i] && 's' !in REDACTED;
    }
    SubNoMatch(KeyMatch, REDACTED, REDACTED);
  }

  datatype Payload = Payload(headers: map<string, string>, body: Json)

  /** `write_fixture`. `dumps` is `json.dumps(payload, indent=2)`; the text is what is written, None
      is the refusal. */
  method WriteFixture(lower: string -> string, dumps: Payload -> string, headers: Headers, body: Json)
    returns (written: Option<string>, ghost payload: Payload)
    ensures payload.body == Redact(body) && AllClean(payload.body)
    ensures forall name | name in payload.headers ::
      Clean(payload.headers[name]) && (Hidden(name) ==> payload.headers[name] == REDACTED)
    ensures written == if Contains(dumps(payload) + "\n", "sk-ant") then None else Some(dumps(payload) + "\n")
    ensures written.Some? ==> !Contains(written.value, "sk-ant")
  {
    var redacted := RedactHeaders(lower, headers);
    RedactCleans(body);
    payload := Payload(redacted, Redact(body));
    var text := dumps(Payload(redacted, Redact(body))) + "\n";
    if Contains(text, "sk-ant") {
      return None, payload;
    }
    written := Some(text);
  }

  /** The refusal is not idle: a bare prefix passes redaction unchanged. */
  lemma BarePrefixSurvives()
    ensures RedactText(KEY_PREFIX) == KEY_PREFIX && Contains(RedactText(KEY_PREFIX), "sk-ant")
  {
    var w := KEY_PREFIX;
    forall i | 0 <= i < |w| ensures KeyMatch(w[i..]) == 0 {
      KeyMatchShape(w[i..]);
    }
    RedactedWord(w);
    assert "sk-ant" <= w[0..];
  }
}
