/** The Markdown tables of the configuration reference, and the parser that reads such tables
    (gen_claude_config_reference.py). */
module ReferenceTable {
  import opened Options
  import opened Text
  import opened Replacement

  /** A catalogue entry. A missing list, default or flag is the empty or false one. */
  datatype Entry = Entry(
    name: string,
    control: string,
    values: seq<string>,
    defaultValue: string,
    deprecated: bool,
    readOnly: bool,
    managedOnly: bool,
    example: string,
    purpose: string
  )

  const DOCS_BASE := "https://code.claude.com"
  const DASH := "\U{2014}"

  const CONTROL_LABEL := map[
    "boolean" := "toggle",
    "set_or_unset" := "set/unset \U{26A0}",
    "numeric_boolean" := "number-as-toggle \U{26A0}",
    "enum" := "select",
    "number" := "number",
    "string" := "text",
    "path" := "path",
    "list" := "list",
    "json" := "JSON",
    "secret" := "secret",
    "array" := "array",
    "object" := "object"
  ]

  type Labels = map<string, string>

  /** No label holds a pipe. */
  ghost predicate PlainLabels(labels: Labels) {
    forall control | control in labels :: '|' !in labels[control]
  }

  // ----- reading

  function StripAll(cells: seq<string>): (r: seq<string>)
    ensures |r| == |cells| && forall i | 0 <= i < |cells| :: r[i] == Strip(cells[i])
  {
    seq(|cells|, i requires 0 <= i < |cells| => Strip(cells[i]))
  }

  predicate Pipe(c: char) {
    c == '|'
  }

  function ParseRow(line: string): seq<string> {
    StripAll(Split(Trim(Pipe, Strip(line)), '|'))
  }

  /** The rows from line `i` on, up to the first line that is no table row. */
  function Rows(lines: seq<string>, i: nat): seq<seq<string>>
    decreases |lines| - i
  {
    if i < |lines| && "|" <= lines[i] then [ParseRow(lines[i])] + Rows(lines, i + 1) else []
  }

  /** `parse_table` */
  method ParseTable(lines: seq<string>, start: nat) returns (rows: seq<seq<string>>)
    ensures rows == Rows(lines, start + 2)
  {
    rows := [];
    var i := start + 2;
    while i < |lines| && "|" <= lines[i]
      invariant rows + Rows(lines, i) == Rows(lines, start + 2)
      decreases |lines| - i
    {
      var cells := StripAll(Split(Trim(Pipe, Strip(lines[i])), '|'));
      assert Rows(lines, i) == [cells] + Rows(lines, i + 1);
      rows := rows + [cells];
      i := i + 1;
    }
  }

  // ----- one row

  function Padded(cells: seq<string>): (r: seq<string>)
    ensures |r| == |cells| && forall i | 0 <= i < |cells| :: r[i] == " " + cells[i] + " "
  {
    seq(|cells|, i requires 0 <= i < |cells| => " " + cells[i] + " ")
  }

  /** `| a | b | c |` */
  function Row(cells: seq<string>): string {
    "|" + Join(Padded(cells), '|') + "|"
  }

  ghost predicate PipeFree(cells: seq<string>) {
    forall i | 0 <= i < |cells| :: '|' !in cells[i]
  }

  lemma {:induction false} JoinEnds(xs: seq<string>, c: char)
    requires xs != [] && forall i | 0 <= i < |xs| :: |xs[i]| >= 2 && xs[i][0] == ' ' && xs[i][|xs[i]| - 1] == ' '
    ensures var s := Join(xs, c); |s| >= 2 && s[0] == ' ' && s[|s| - 1] == ' '
  {
    if |xs| > 1 {
      JoinEnds(xs[1..], c);
    }
  }

  /** A separator inside a piece makes a piece too many. */
  lemma {:induction false} TooManyPieces(xs: seq<string>, c: char)
    requires xs != []
    ensures |Split(Join(xs, c), c)| >= |xs|
    ensures (exists i :: 0 <= i < |xs| && c in xs[i]) ==> |Split(Join(xs, c), c)| > |xs|
  {
    SplitCount(xs[0], c);
    assert c in xs[0] ==> multiset(xs[0])[c] > 0;
    if |xs| > 1 {
      SplitAppend(xs[0], c, Join(xs[1..], c));
      TooManyPieces(xs[1..], c);
      assert forall i | 1 <= i < |xs| :: xs[i] == xs[1..][i - 1];
    }
  }

  lemma RowInside(cells: seq<string>)
    requires cells != []
    ensures ParseRow(Row(cells)) == StripAll(Split(Join(Padded(cells), '|'), '|'))
  {
    var inside := Join(Padded(cells), '|');
    JoinEnds(Padded(cells), '|');
    TrimOfTight(IsSpace, Row(cells));
    TrimPadding(Pipe, "|", inside, "|");
    TrimOfTight(Pipe, inside);
  }

  /** A printed row reads back as its trimmed cells exactly when no cell holds a pipe, escaped
      or not. */
  lemma RowRoundTrip(cells: seq<string>)
    requires cells != []
    ensures ParseRow(Row(cells)) == StripAll(cells) <==> PipeFree(cells)
  {
    RowInside(cells);
    var padded := Padded(cells);
    if PipeFree(cells) {
      SplitJoin(padded, '|');
      forall i | 0 <= i < |cells| ensures Strip(padded[i]) == Strip(cells[i]) {
        TrimPadding(IsSpace, " ", cells[i], " ");
      }
      assert StripAll(padded) == StripAll(cells);
    } else {
      var i :| 0 <= i < |cells| && '|' in cells[i];
      assert '|' in padded[i];
      TooManyPieces(padded, '|');
    }
  }

  // ----- rendering an entry

  function Rewritten(text: string, first: string, second: string, link: string): string {
    Replace(Replace(text, first, link), second, link)
  }

  function OneLine(text: string): string {
    Replace(Replace(text, "|", "\\|"), "\n", " ")
  }

  /** `esc` */
  function Esc(text: string): string {
    EscWith(text, "](/docs/en/", "](/en/", "](" + DOCS_BASE + "/docs/en/")
  }

  function EscWith(text: string, first: string, second: string, link: string): string {
    Strip(OneLine(Rewritten(text, first, second, link)))
  }

  function Ticked(value: string): string {
    "`" + value + "`"
  }

  function TickedList(values: seq<string>): string {
    if values == [] then ""
    else if |values| == 1 then Ticked(values[0])
    else Ticked(values[0]) + ", " + TickedList(values[1..])
  }

  function ValuesCell(e: Entry): string {
    var values := TickedList(e.values);
    var shown :=
      if e.defaultValue == "" then values
      else if values == "" then "default " + Ticked(e.defaultValue)
      else values + "<br>" + ("default " + Ticked(e.defaultValue));
    if shown == "" then DASH else shown
  }

  function FlagWords(e: Entry): seq<string> {
    (if e.deprecated then ["**deprecated**"] else [])
    + (if e.readOnly then ["**read-only**"] else [])
    + (if e.managedOnly then ["**managed-only**"] else [])
  }

  /** `flags` */
  function Flags(e: Entry): string {
    JoinWords(FlagWords(e))
  }

  function JoinWords(words: seq<string>): string {
    Join(words, ' ')
  }

  function PurposeCell(e: Entry): string {
    if Flags(e) == "" then Esc(e.purpose) else Flags(e) + " " + DASH + " " + Esc(e.purpose)
  }

  function ExampleCell(e: Entry): string {
    if Esc(e.example) == "" then DASH else Esc(e.example)
  }

  /** The label of a control; an entry without one is never printed. */
  function Label(labels: Labels, control: string): string {
    if control in labels then labels[control] else ""
  }

  function EnvCells(labels: Labels, e: Entry): seq<string> {
    [Ticked(e.name), Label(labels, e.control), ValuesCell(e), PurposeCell(e)]
  }

  function SettingCells(labels: Labels, e: Entry): seq<string> {
    [Ticked(e.name), Label(labels, e.control), ValuesCell(e), ExampleCell(e), PurposeCell(e)]
  }

  // ----- what a cell says

  /** Every other piece, from the first on. */
  function Evens<T>(xs: seq<T>): seq<T> {
    if xs == [] then [] else [xs[0]] + Odds(xs[1..])
  }

  /** Every other piece, from the second on. */
  function Odds<T>(xs: seq<T>): seq<T> {
    if xs == [] then [] else Evens(xs[1..])
  }

  ghost predicate TickFree(xs: seq<string>) {
    forall i | 0 <= i < |xs| :: '`' !in xs[i]
  }

  /** Text with code in it splits at the backticks into what is around the code and the code. */
  lemma SplitTicked(value: string, rest: string)
    requires '`' !in value
    ensures Split(Ticked(value) + rest, '`') == ["", value] + Split(rest, '`')
  {
    var tail := value + ['`'] + rest;
    assert Ticked(value) + rest == ['`'] + tail;
    SplitCons('`', tail, '`');
    SplitAppend(value, '`', rest);
    SplitPlain(value, '`');
    TwoFirst("", value, Split(rest, '`'));
  }

  lemma TwoFirst<T>(a: T, b: T, rest: seq<T>)
    ensures [a] + ([b] + rest) == [a, b] + rest
  {
  }

  /** A plain start goes to the first piece. */
  lemma {:induction false} SplitPlainStart(start: string, text: string)
    requires '`' !in start
    ensures Split(start + text, '`') == AddText(start, Split(text, '`'))
  {
    var pieces := Split(text, '`');
    if start == "" {
      assert start + text == text && "" + pieces[0] == pieces[0] && [pieces[0]] + pieces[1..] == pieces;
    } else {
      var rest := start[1..];
      SplitPlainStart(rest, text);
      assert start + text == [start[0]] + (rest + text);
      SplitCons(start[0], rest + text, '`');
      assert [start[0]] + (rest + pieces[0]) == start + pieces[0];
      assert start[0] in start;
    }
  }

  function AddText(start: string, pieces: seq<string>): seq<string>
    requires pieces != []
  {
    [start + pieces[0]] + pieces[1..]
  }

  /** The listed values are what stands in backticks, with ", " between them and `rest` after them. */
  lemma {:induction false} TickedListReads(values: seq<string>, rest: string)
    requires TickFree(values) && values != [] && '`' !in rest
    ensures Odds(Split(TickedList(values) + rest, '`')) == values
    ensures Evens(Split(TickedList(values) + rest, '`')) == Around(|values|, rest)
    decreases |values|
  {
    if |values| == 1 {
      OneValueReads(values[0], rest);
      assert values == [values[0]];
    } else {
      TickedListReads(values[1..], rest);
      MoreValuesRead(values[0], values[1..], rest);
      assert values == [values[0]] + values[1..];
    }
  }

  lemma MoreValuesRead(first: string, values: seq<string>, rest: string)
    requires values != [] && '`' !in first && '`' !in values[0]
    ensures var before, now := Split(TickedList(values) + rest, '`'), Split(TickedList([first] + values) + rest, '`');
      Odds(now) == [first] + Odds(before) && Evens(now) == ["", ", "] + Evens(before)[1..]
  {
    var more := TickedList(values) + rest;
    assert ([first] + values)[1..] == values;
    assert TickedList([first] + values) + rest == Ticked(first) + (", " + more);
    SplitTicked(first, ", " + more);
    SplitPlainStart(", ", more);
    StartsTicked(values, rest);
    FirstPieceReads(first, Split(more, '`'));
  }

  lemma OneValueReads(value: string, rest: string)
    requires '`' !in value && '`' !in rest
    ensures var pieces := Split(TickedList([value]) + rest, '`');
      Odds(pieces) == [value] && Evens(pieces) == ["", rest]
  {
    SplitTicked(value, rest);
    SplitPlain(rest, '`');
    PairReads("", value, [rest]);
    HeadReads(rest, []);
    assert [rest] + [] == [rest];
  }

  lemma StartsTicked(values: seq<string>, rest: string)
    requires values != [] && '`' !in values[0]
    ensures Split(TickedList(values) + rest, '`')[0] == ""
  {
    var tail := if |values| == 1 then rest else ", " + TickedList(values[1..]) + rest;
    assert TickedList(values) + rest == Ticked(values[0]) + tail;
    SplitTicked(values[0], tail);
  }

  lemma PairReads<T>(a: T, b: T, rest: seq<T>)
    ensures Evens([a, b] + rest) == [a] + Evens(rest) && Odds([a, b] + rest) == [b] + Odds(rest)
  {
    var all := [a, b] + rest;
    assert all[1..] == [b] + rest && ([b] + rest)[1..] == rest;
    assert Evens([b] + rest) == [b] + Odds(rest);
  }

  lemma HeadReads<T>(a: T, rest: seq<T>)
    ensures Evens([a] + rest) == [a] + Odds(rest) && Odds([a] + rest) == Evens(rest)
  {
    assert ([a] + rest)[1..] == rest;
  }

  lemma FirstPieceReads(first: string, pieces: seq<string>)
    requires pieces != [] && pieces[0] == ""
    ensures var all := ["", first] + AddText(", ", pieces);
      Odds(all) == [first] + Odds(pieces) && Evens(all) == ["", ", "] + Evens(pieces)[1..]
  {
    var rest := pieces[1..];
    assert AddText(", ", pieces) == [", "] + rest by { assert ", " + "" == ", "; }
    assert pieces == [""] + rest;
    PairReads("", first, [", "] + rest);
    HeadReads(", ", rest);
    HeadReads("", rest);
    TwoFirst("", ", ", Odds(rest));
    DropFirst("", Odds(rest));
  }

  lemma DropFirst<T>(a: T, rest: seq<T>)
    ensures ([a] + rest)[1..] == rest
  {
  }

  /** What stands around `n` values in backticks. */
  function Around(n: nat, rest: string): seq<string>
    requires n > 0
  {
    if n == 1 then ["", rest] else ["", ", "] + Around(n - 1, rest)[1..]
  }

  lemma {:induction false} EvensAppend<T>(xs: seq<T>, a: T, b: T)
    requires |xs| % 2 == 1
    ensures Odds(xs + [a, b]) == Odds(xs) + [a] && Evens(xs + [a, b]) == Evens(xs) + [b]
  {
    if |xs| == 1 {
      HeadReads(xs[0], [a, b]);
      HeadReads(xs[0], []);
      PairReads(a, b, []);
      assert xs == [xs[0]] + [] && xs + [a, b] == [xs[0]] + ([a, b] + []);
    } else {
      var rest := xs[2..];
      EvensAppend(rest, a, b);
      PairReads(xs[0], xs[1], rest);
      PairReads(xs[0], xs[1], rest + [a, b]);
      assert xs == [xs[0], xs[1]] + rest && xs + [a, b] == [xs[0], xs[1]] + (rest + [a, b]);
      AssociateThree([xs[0]], Evens(rest), [b]);
      AssociateThree([xs[1]], Odds(rest), [a]);
    }
  }

  lemma AssociateThree<T>(a: seq<T>, b: seq<T>, c: seq<T>)
    ensures a + (b + c) == (a + b) + c
  {
  }

  lemma {:induction false} PieceCounts<T>(xs: seq<T>)
    ensures |Evens(xs)| + |Odds(xs)| == |xs|
    decreases |xs|
  {
    if xs != [] {
      PieceCounts(xs[1..]);
    }
  }

  lemma {:induction false} AroundCount(n: nat, rest: string)
    requires n > 0
    ensures |Around(n, rest)| == n + 1
  {
    if n > 1 {
      AroundCount(n - 1, rest);
    }
  }

  /** A default after some text that ends outside backticks. */
  lemma DefaultReads(text: string, value: string)
    requires '`' !in value && |Split(text, '`')| % 2 == 1
    ensures var pieces, before := Split(text + Ticked(value), '`'), Split(text, '`');
      Odds(pieces) == Odds(before) + [value] && Evens(pieces) == Evens(before) + [""]
  {
    DefaultPieces(text, value);
    EvensAppend(Split(text, '`'), value, "");
  }

  lemma DefaultPieces(text: string, value: string)
    requires '`' !in value
    ensures Split(text + Ticked(value), '`') == Split(text, '`') + [value, ""]
  {
    var tail := value + ['`'] + "";
    assert text + Ticked(value) == text + ['`'] + tail;
    SplitAppend(text, '`', tail);
    SplitAppend(value, '`', "");
    SplitPlain(value, '`');
    assert [value] + [""] == [value, ""];
  }

  /** What stands in backticks in the cell: the values and then the default, where there are any. */
  ghost function Quoted(e: Entry): seq<string> {
    e.values + if e.defaultValue == "" then [] else [e.defaultValue]
  }

  /** What stands around it: a dash alone if there is nothing; ", " between values, and "default " before
      a default, on a line of its own after values. */
  ghost function Spoken(e: Entry): seq<string> {
    if e.values == [] && e.defaultValue == "" then [DASH]
    else if e.values == [] then ["default ", ""]
    else if e.defaultValue == "" then Around(|e.values|, "")
    else Around(|e.values|, "<br>default ") + [""]
  }

  /** The values cell can be read back: split at its backticks it gives the values, the default, and what
      stands around them. */
  lemma ValuesCellReads(e: Entry)
    requires TickFree(e.values) && '`' !in e.defaultValue
    ensures var pieces := Split(ValuesCell(e), '`'); Odds(pieces) == Quoted(e) && Evens(pieces) == Spoken(e)
  {
    if e.values == [] {
      NoValuesRead(e);
    } else if e.defaultValue == "" {
      TickedListReads(e.values, "");
      assert TickedList(e.values) + "" == ValuesCell(e);
    } else {
      var lead := "<br>default ";
      var text := TickedList(e.values) + lead;
      TickedListReads(e.values, lead);
      PieceCounts(Split(text, '`'));
      AroundCount(|e.values|, lead);
      DefaultReads(text, e.defaultValue);
      ValuesThenDefault(e);
    }
  }

  lemma ValuesThenDefault(e: Entry)
    requires e.values != [] && e.defaultValue != ""
    ensures ValuesCell(e) == (TickedList(e.values) + "<br>default ") + Ticked(e.defaultValue)
  {
    assert "<br>" + ("default " + Ticked(e.defaultValue)) == "<br>default " + Ticked(e.defaultValue);
  }

  lemma OnePieceReads(x: string)
    requires '`' !in x
    ensures Split(x, '`') == [x] && Odds(Split(x, '`')) == [] && Evens(Split(x, '`')) == [x]
  {
    SplitPlain(x, '`');
    HeadReads(x, []);
    assert [x] + [] == [x];
  }

  lemma CellWithoutValues(e: Entry)
    requires e.values == []
    ensures ValuesCell(e) == if e.defaultValue == "" then DASH else "default " + Ticked(e.defaultValue)
  {
  }

  lemma NoValuesRead(e: Entry)
    requires e.values == [] && '`' !in e.defaultValue
    ensures var pieces := Split(ValuesCell(e), '`'); Odds(pieces) == Quoted(e) && Evens(pieces) == Spoken(e)
  {
    CellWithoutValues(e);
    if e.defaultValue == "" {
      OnePieceReads(DASH);
    } else {
      DefaultAloneReads("default ", e.defaultValue);
      assert [] + [e.defaultValue] == [e.defaultValue];
    }
  }

  lemma DefaultAloneReads(lead: string, value: string)
    requires '`' !in lead && '`' !in value
    ensures var pieces := Split(lead + Ticked(value), '`'); Odds(pieces) == [value] && Evens(pieces) == [lead, ""]
  {
    OnePieceReads(lead);
    DefaultReads(lead, value);
  }

  /** Which column holds what: the name as code, the label, the values, and the purpose. */
  lemma EnvColumns(labels: Labels, e: Entry)
    requires e.control in labels
    ensures EnvCells(labels, e) == [Ticked(e.name), labels[e.control], ValuesCell(e), PurposeCell(e)]
    ensures Ticked(e.name) == "`" + e.name + "`"
  {
  }

  /** The same in the other table, with the example before the purpose. */
  lemma SettingColumns(labels: Labels, e: Entry)
    requires e.control in labels
    ensures SettingCells(labels, e) ==
      [Ticked(e.name), labels[e.control], ValuesCell(e), ExampleCell(e), PurposeCell(e)]
  {
  }

  /** The example is the escaped one, or a dash if that is blank. */
  lemma ExampleSays(e: Entry)
    ensures ExampleCell(e) != ""
    ensures ExampleCell(e) == Esc(e.example) || (ExampleCell(e) == DASH && Esc(e.example) == "")
  {
  }

  /** The purpose comes after the marks of the flags and a dash, if any flag is set. */
  lemma PurposeSays(e: Entry)
    ensures !e.deprecated && !e.readOnly && !e.managedOnly ==> PurposeCell(e) == Esc(e.purpose)
    ensures e.deprecated || e.readOnly || e.managedOnly ==>
      Flags(e) != "" && PurposeCell(e) == Flags(e) + (" " + DASH + " ") + Esc(e.purpose)
  {
    FlagsTell(e, e);
    Glued(Flags(e), DASH, Esc(e.purpose));
  }

  lemma Glued(a: string, b: string, c: string)
    ensures a + " " + b + " " + c == a + (" " + b + " ") + c
  {
  }

  // ----- what a pipe in a field does

  lemma ReplaceKeepsChar(t: string, p: string, rep: string, c: char)
    requires p != "" && (c in p <==> c in rep)
    ensures c in Replace(t, p, rep) <==> c in t
  {
    SubKeepsChar(MatchLiteral(p), rep, t, c);
  }

  lemma {:induction false} SubKeepsChar(m: string -> nat, rep: string, t: string, c: char)
    requires forall u :: m(u) <= |u|
    requires forall u | m(u) > 0 :: c in u[..m(u)] <==> c in rep
    ensures c in SubAll(m, rep, t) <==> c in t
    decreases |t|
  {
    if t != "" {
      var n := m(t);
      var k := if n > 0 then n else 1;
      assert t == t[..k] + t[k..];
      SubKeepsChar(m, rep, t[k..], c);
    }
  }

  lemma TrimKeepsChar(p: char -> bool, s: string, c: char)
    requires !p(c)
    ensures c in Trim(p, s) <==> c in s
  {
    TrimTight(p, s);
    if c in s {
      TrimLeftKeepsChar(p, s, c);
      TrimRightKeepsChar(p, TrimLeft(p, s), c);
    }
  }

  lemma {:induction false} TrimLeftKeepsChar(p: char -> bool, s: string, c: char)
    requires !p(c) && c in s
    ensures c in TrimLeft(p, s)
  {
    if p(s[0]) {
      assert s == [s[0]] + s[1..];
      TrimLeftKeepsChar(p, s[1..], c);
    }
  }

  lemma {:induction false} TrimRightKeepsChar(p: char -> bool, s: string, c: char)
    requires !p(c) && c in s
    ensures c in TrimRight(p, s)
  {
    if p(s[|s| - 1]) {
      assert s == s[..|s| - 1] + [s[|s| - 1]];
      TrimRightKeepsChar(p, s[..|s| - 1], c);
    }
  }

  lemma RewritingKeepsPipes(text: string, first: string, second: string, link: string)
    requires first != "" && second != "" && '|' !in first && '|' !in second && '|' !in link
    ensures '|' in Rewritten(text, first, second, link) <==> '|' in text
  {
    ReplaceKeepsChar(text, first, link, '|');
    ReplaceKeepsChar(Replace(text, first, link), second, link, '|');
  }

  lemma OneLineKeepsPipes(text: string)
    ensures '|' in OneLine(text) <==> '|' in text
  {
    ReplaceKeepsChar(text, "|", "\\|", '|');
    ReplaceKeepsChar(Replace(text, "|", "\\|"), "\n", " ", '|');
  }

  lemma EscWithKeepsPipes(text: string, first: string, second: string, link: string)
    requires first != "" && second != "" && '|' !in first && '|' !in second && '|' !in link
    ensures '|' in EscWith(text, first, second, link) <==> '|' in text
  {
    RewritingKeepsPipes(text, first, second, link);
    var rewritten := Rewritten(text, first, second, link);
    OneLineKeepsPipes(rewritten);
    TrimKeepsChar(IsSpace, OneLine(rewritten), '|');
  }

  /** Escaping neither hides a pipe nor brings one in. */
  lemma EscKeepsPipes(text: string)
    ensures '|' in Esc(text) <==> '|' in text
  {
    EscWithKeepsPipes(text, "](/docs/en/", "](/en/", "](" + DOCS_BASE + "/docs/en/");
  }

  // ----- links

  /** No character of the marker is in the text. */
  ghost predicate Foreign(s: string, marker: string) {
    s != "" && marker != "" && forall i | 0 <= i < |s| :: s[i] !in marker
  }

  lemma FirstCharAt(part: string, t: string, i: int)
    requires part != "" && 0 <= i <= |t|
    ensures part <= t[i..] ==> i < |t| && t[i] == part[0]
  {
    assert part <= t[i..] ==> t[i..][0] == part[0];
  }

  lemma StartOfEnd(t: string, end: string)
    requires end != ""
    ensures EndsWith(t, end) ==> |end| <= |t| && t[|t| - |end|] == end[0]
  {
    if EndsWith(t, end) {
      assert t[|t| - |end|..][0] == end[0];
    }
  }

  lemma ForeignIsOff(s: string, marker: string)
    requires Foreign(s, marker)
    ensures Off(s, marker) && !Contains(marker, s)
  {
    assert marker[0] in marker;
    forall i | 0 <= i <= |s| ensures !(marker <= s[i..]) {
      FirstCharAt(marker, s, i);
    }
    forall i | 0 < i < |s| ensures !(s[i..] <= marker) && !EndsWith(marker, s[..i]) {
      FirstCharAt(s[i..], marker, 0);
      assert marker[0..] == marker && s[i..][0] == s[i];
      StartOfEnd(marker, s[..i]);
      assert |marker| >= i ==> marker[|marker| - i] in marker;
    }
    forall i | 0 <= i <= |marker| ensures !(s <= marker[i..]) {
      FirstCharAt(s, marker, i);
      assert i < |marker| ==> marker[i] in marker;
    }
  }

  predicate LinkChar(c: char) {
    c != ']' && c != '|' && c != '\\' && c != '\n' && c != ' '
  }

  /** The start of a link target: one closing bracket, at its start, and no character that is escaped or
      replaced. */
  ghost predicate LinkStart(s: string) {
    |s| >= 3 && s[0] == ']' && forall i | 0 < i < |s| :: LinkChar(s[i])
  }

  lemma LinksAreOff(s: string, link: string)
    requires LinkStart(s) && LinkStart(link) && |s| < |link| && !(s <= link)
    ensures Off(s, link) && !Contains(link, s)
  {
    forall i | 0 < i < |s| ensures !(s[i..] <= link) && !EndsWith(link, s[..i]) {
      FirstCharAt(s[i..], link, 0);
      assert link[0..] == link && s[i..][0] == s[i];
      StartOfEnd(link, s[..i]);
    }
    forall i | 0 <= i <= |link| ensures !(s <= link[i..]) {
      FirstCharAt(s, link, i);
      assert link[0..] == link;
    }
  }

  lemma OneLineKeepsOut(text: string, s: string)
    requires LinkStart(s) && !Contains(text, s)
    ensures !Contains(OneLine(text), s)
  {
    assert Foreign(s, "\\|") && Foreign(s, " ");
    ForeignIsOff(s, "\\|");
    ForeignIsOff(s, " ");
    ReplaceRemoves(text, "|", "\\|", s);
    ReplaceRemoves(Replace(text, "|", "\\|"), "\n", " ", s);
  }

  lemma StripKeepsOut(text: string, s: string)
    requires !Contains(text, s)
    ensures !Contains(Strip(text), s)
  {
    var t := TrimLeft(IsSpace, text);
    var lo := TrimLeftAt(text);
    TrimRightShape(IsSpace, t);
    var hi := lo + |TrimRight(IsSpace, t)|;
    assert Strip(text) == text[lo..hi];
    if Contains(text[lo..hi], s) {
      ContainsInside(text, lo, hi, s);
    }
  }

  lemma {:induction false} TrimLeftAt(text: string) returns (lo: nat)
    ensures lo <= |text| && TrimLeft(IsSpace, text) == text[lo..]
  {
    lo := 0;
    if text != "" && IsSpace(text[0]) {
      var more := TrimLeftAt(text[1..]);
      lo := more + 1;
    }
  }

  /** No link of the two relative forms is left. */
  lemma LinksAreRewritten(text: string, first: string, second: string, link: string)
    requires LinkStart(first) && LinkStart(second) && LinkStart(link)
    requires |first| < |link| && |second| < |link| && !(first <= link) && !(second <= link)
    ensures !Contains(EscWith(text, first, second, link), first)
    ensures !Contains(EscWith(text, first, second, link), second)
  {
    var once := Replace(text, first, link);
    var twice := Replace(once, second, link);
    LinksAreOff(first, link);
    LinksAreOff(second, link);
    ReplaceRemoves(text, first, link, first);
    ReplaceRemoves(once, second, link, first);
    ReplaceRemoves(once, second, link, second);
    OneLineKeepsOut(twice, first);
    OneLineKeepsOut(twice, second);
    StripKeepsOut(OneLine(twice), first);
    StripKeepsOut(OneLine(twice), second);
  }

  lemma SiteIsPlain()
    ensures forall i | 0 <= i < |DOCS_BASE| :: LinkChar(DOCS_BASE[i])
    ensures DOCS_BASE != "" && DOCS_BASE[0] != '/'
  {
  }

  lemma LinkOfSite(base: string, tail: string)
    requires base != "" && base[0] != '/'
    requires (forall i | 0 <= i < |base| :: LinkChar(base[i])) && (forall i | 0 <= i < |tail| :: LinkChar(tail[i]))
    ensures LinkStart("](" + base + tail)
    ensures forall s | LinkStart(s) && s[2] == '/' :: !(s <= "](" + base + tail)
  {
    var link := "](" + base + tail;
    assert link[2] == base[0];
    forall i | 0 < i < |link| ensures LinkChar(link[i]) {
      if i >= 2 {
        assert link[i] == if i < 2 + |base| then base[i - 2] else tail[i - 2 - |base|];
      }
    }
  }

  /** So an escaped text holds no link that is relative to the documentation site. */
  lemma EscapedLinksAreAbsolute(text: string)
    ensures !Contains(Esc(text), "](/docs/en/") && !Contains(Esc(text), "](/en/")
  {
    var first, second, tail := "](/docs/en/", "](/en/", "/docs/en/";
    SiteIsPlain();
    LinkOfSite(DOCS_BASE, tail);
    LinksAreRewritten(text, first, second, "](" + DOCS_BASE + tail);
  }

  // ----- what escaping is for

  ghost predicate PipesEscaped(s: string) {
    forall i | 0 <= i < |s| && s[i] == '|' :: i > 0 && s[i - 1] == '\\'
  }

  lemma {:induction false} ReplacedPipes(t: string)
    ensures PipesEscaped(Replace(t, "|", "\\|"))
  {
    if t != "" {
      ReplacedPipes(t[1..]);
    }
  }

  lemma {:induction false} ReplacedNewlines(t: string)
    ensures |Replace(t, "\n", " ")| == |t|
    ensures forall i | 0 <= i < |t| :: Replace(t, "\n", " ")[i] == if t[i] == '\n' then ' ' else t[i]
  {
    if t != "" {
      ReplacedNewlines(t[1..]);
      assert forall i | 1 <= i < |t| :: t[1..][i - 1] == t[i];
    }
  }

  lemma TrimKeepsEscapes(p: char -> bool, s: string)
    requires PipesEscaped(s) && !p('\\')
    ensures PipesEscaped(Trim(p, s))
  {
    TrimLeftKeepsEscapes(p, s);
    TrimRightShape(p, TrimLeft(p, s));
  }

  lemma {:induction false} TrimLeftKeepsEscapes(p: char -> bool, s: string)
    requires PipesEscaped(s) && !p('\\')
    ensures PipesEscaped(TrimLeft(p, s))
  {
    if s != "" && p(s[0]) {
      assert forall i | 1 <= i < |s| :: s[1..][i - 1] == s[i];
      TrimLeftKeepsEscapes(p, s[1..]);
    }
  }

  /** An escaped text is one line without outer blanks in which every pipe has its backslash. */
  lemma EscapedText(text: string)
    ensures '\n' !in Esc(text) && Tight(IsSpace, Esc(text)) && PipesEscaped(Esc(text))
  {
    EscapedWith(text, "](/docs/en/", "](/en/", "](" + DOCS_BASE + "/docs/en/");
  }

  lemma EscapedWith(text: string, first: string, second: string, link: string)
    ensures var r := EscWith(text, first, second, link); '\n' !in r && Tight(IsSpace, r) && PipesEscaped(r)
  {
    var rewritten := Rewritten(text, first, second, link);
    OneLineText(rewritten);
    TrimTight(IsSpace, OneLine(rewritten));
    TrimKeepsEscapes(IsSpace, OneLine(rewritten));
  }

  lemma OneLineText(t: string)
    ensures '\n' !in OneLine(t) && PipesEscaped(OneLine(t))
  {
    ReplacedPipes(t);
    ReplacedNewlines(Replace(t, "|", "\\|"));
  }

  // ----- which entries have cells with a pipe

  ghost predicate AnyPipe(values: seq<string>) {
    exists i :: 0 <= i < |values| && '|' in values[i]
  }

  lemma {:induction false} TickedListPipes(values: seq<string>)
    ensures '|' in TickedList(values) <==> AnyPipe(values)
  {
    if values != [] {
      TickedListPipes(values[1..]);
      assert forall i | 1 <= i < |values| :: values[i] == values[1..][i - 1];
      assert '|' in Ticked(values[0]) <==> '|' in values[0];
    }
  }

  lemma ValuesCellPipes(e: Entry)
    ensures '|' in ValuesCell(e) <==> AnyPipe(e.values) || '|' in e.defaultValue
  {
    TickedListPipes(e.values);
    assert '|' in Ticked(e.defaultValue) <==> '|' in e.defaultValue;
  }

  /** The marks tell exactly which flags are set: two entries show the same marks if and only if they
      agree on all three, and no marks if and only if none is set. */
  lemma FlagsTell(a: Entry, b: Entry)
    ensures Flags(a) == Flags(b) <==>
      a.deprecated == b.deprecated && a.readOnly == b.readOnly && a.managedOnly == b.managedOnly
    ensures Flags(a) == "" <==> !a.deprecated && !a.readOnly && !a.managedOnly
  {
    WordsReadBack(FlagWords(a));
    WordsReadBack(FlagWords(b));
    WordTellsFlag(a);
    WordTellsFlag(b);
  }

  lemma WordTellsFlag(e: Entry)
    ensures "**deprecated**" in FlagWords(e) <==> e.deprecated
    ensures "**read-only**" in FlagWords(e) <==> e.readOnly
    ensures "**managed-only**" in FlagWords(e) <==> e.managedOnly
    ensures FlagWords(e) == [] <==> !e.deprecated && !e.readOnly && !e.managedOnly
    ensures forall w | w in FlagWords(e) :: w != "" && ' ' !in w
  {
    assert |"**deprecated**"| == 14 && |"**read-only**"| == 13 && |"**managed-only**"| == 16;
  }

  /** Words without spaces can be read back from their join. */
  lemma WordsReadBack(words: seq<string>)
    ensures (forall w | w in words :: w != "" && ' ' !in w) && words != [] ==>
      JoinWords(words) != "" && Split(JoinWords(words), ' ') == words
  {
    if (forall w | w in words :: w != "" && ' ' !in w) && words != [] {
      SplitJoin(words, ' ');
      assert words[0] in words;
    }
  }

  lemma FlagsHaveNoPipe(e: Entry)
    ensures '|' !in Flags(e)
  {
    WordsHaveNoPipe(FlagWords(e));
  }

  lemma {:induction false} WordsHaveNoPipe(words: seq<string>)
    requires PipeFree(words)
    ensures '|' !in JoinWords(words)
  {
    if |words| > 1 {
      assert forall i | 0 <= i < |words[1..]| :: words[1..][i] == words[i + 1];
      WordsHaveNoPipe(words[1..]);
    }
  }

  lemma LabelsArePlain()
    ensures PlainLabels(CONTROL_LABEL)
  {
  }

  lemma PurposeCellPipes(e: Entry)
    ensures '|' in PurposeCell(e) <==> '|' in e.purpose
  {
    EscKeepsPipes(e.purpose);
    FlagsHaveNoPipe(e);
    PrefixHasNoPipe(Flags(e), Esc(e.purpose));
  }

  lemma PrefixHasNoPipe(flags: string, text: string)
    requires '|' !in flags
    ensures '|' in flags + " " + DASH + " " + text <==> '|' in text
  {
  }

  lemma ExampleCellPipes(e: Entry)
    ensures '|' in ExampleCell(e) <==> '|' in e.example
  {
    EscKeepsPipes(e.example);
  }

  /** No field of the entry holds a pipe; the example counts only where it is printed. */
  ghost predicate Plain(e: Entry, withExample: bool) {
    && '|' !in e.name && !AnyPipe(e.values) && '|' !in e.defaultValue && '|' !in e.purpose
    && (withExample ==> '|' !in e.example)
  }

  lemma PipeFreeCells(a: string, b: string, c: string, d: string)
    ensures PipeFree([a, b, c, d]) <==> '|' !in a && '|' !in b && '|' !in c && '|' !in d
  {
    var cells := [a, b, c, d];
    assert cells[0] == a && cells[1] == b && cells[2] == c && cells[3] == d;
  }

  lemma CellsArePlain(labels: Labels, e: Entry)
    requires PlainLabels(labels)
    ensures PipeFree(EnvCells(labels, e)) <==> Plain(e, false)
  {
    ValuesCellPipes(e);
    PurposeCellPipes(e);
    TickedPipes(e.name);
    PipeFreeCells(Ticked(e.name), Label(labels, e.control), ValuesCell(e), PurposeCell(e));
  }

  lemma TickedPipes(s: string)
    ensures '|' in Ticked(s) <==> '|' in s
  {
  }

  lemma SettingCellsArePlain(labels: Labels, e: Entry)
    requires PlainLabels(labels)
    ensures PipeFree(SettingCells(labels, e)) <==> Plain(e, true)
  {
    CellsArePlain(labels, e);
    ExampleCellPipes(e);
    OneMoreCell(Ticked(e.name), Label(labels, e.control), ValuesCell(e), ExampleCell(e), PurposeCell(e));
  }

  lemma OneMoreCell(a: string, b: string, c: string, extra: string, d: string)
    ensures PipeFree([a, b, c, extra, d]) <==> PipeFree([a, b, c, d]) && '|' !in extra
  {
    var cells := [a, b, c, extra, d];
    PipeFreeCells(a, b, c, d);
    assert cells[0] == a && cells[1] == b && cells[2] == c && cells[3] == extra && cells[4] == d;
  }

  // ----- sorting by name

  predicate Leq(a: string, b: string) {
    a == "" || (b != "" && (a[0] < b[0] || (a[0] == b[0] && Leq(a[1..], b[1..]))))
  }

  /** The texts agree up to `i`, where the first one ends or has the smaller character. */
  ghost predicate ComesFirstAt(a: string, b: string, i: int) {
    && 0 <= i <= |a| && i <= |b| && a[..i] == b[..i]
    && (i == |a| || (i < |b| && a[i] < b[i]))
  }

  /** The order of texts is that of their first difference; a text comes before its continuations. */
  lemma {:induction false} LeqMeaning(a: string, b: string)
    ensures Leq(a, b) <==> exists i :: ComesFirstAt(a, b, i)
  {
    if a == "" {
      assert ComesFirstAt(a, b, 0);
    } else if b != "" && a[0] < b[0] {
      assert ComesFirstAt(a, b, 0);
    } else if b != "" && a[0] == b[0] {
      LeqMeaning(a[1..], b[1..]);
      forall i | i > 0 ensures ComesFirstAt(a, b, i) <==> ComesFirstAt(a[1..], b[1..], i - 1) {
        OneLater(a, b, i);
      }
      if i :| ComesFirstAt(a[1..], b[1..], i) {
        OneLater(a, b, i + 1);
      }
    }
  }

  lemma OneLater(a: string, b: string, i: int)
    requires a != "" && b != "" && a[0] == b[0] && i > 0
    ensures ComesFirstAt(a, b, i) <==> ComesFirstAt(a[1..], b[1..], i - 1)
  {
    if i <= |a| && i <= |b| {
      assert a[..i] == [a[0]] + a[1..][..i - 1] && b[..i] == [b[0]] + b[1..][..i - 1];
      assert a[..i] == b[..i] ==> a[..i][1..] == b[..i][1..];
      assert a[..i][1..] == a[1..][..i - 1] && b[..i][1..] == b[1..][..i - 1];
    }
  }

  lemma {:induction false} LeqTotal(a: string, b: string)
    ensures Leq(a, b) || Leq(b, a)
  {
    if a != "" && b != "" {
      LeqTotal(a[1..], b[1..]);
    }
  }

  lemma {:induction false} LeqTransitive(a: string, b: string, c: string)
    requires Leq(a, b) && Leq(b, c)
    ensures Leq(a, c)
  {
    if a != "" && a[0] == b[0] == c[0] {
      LeqTransitive(a[1..], b[1..], c[1..]);
    }
  }

  ghost predicate InOrder(entries: seq<Entry>) {
    forall i, j | 0 <= i < j < |entries| :: Leq(entries[i].name, entries[j].name)
  }

  /** Insert behind every entry that is not greater. */
  function Insert(sorted: seq<Entry>, e: Entry): seq<Entry> {
    if sorted == [] then [e]
    else
      var top := sorted[|sorted| - 1];
      if Leq(top.name, e.name) then sorted + [e] else Insert(sorted[..|sorted| - 1], e) + [top]
  }

  /** `sorted(entries, key=lambda e: e["name"])` */
  function ByName(entries: seq<Entry>): seq<Entry> {
    if entries == [] then [] else Insert(ByName(entries[..|entries| - 1]), entries[|entries| - 1])
  }

  function Named(entries: seq<Entry>, name: string): seq<Entry> {
    if entries == [] then []
    else
      var top := entries[|entries| - 1];
      Named(entries[..|entries| - 1], name) + if top.name == name then [top] else []
  }

  lemma {:induction false} InsertFacts(sorted: seq<Entry>, e: Entry)
    requires InOrder(sorted)
    ensures InOrder(Insert(sorted, e))
    ensures multiset(Insert(sorted, e)) == multiset(sorted) + multiset{e}
    ensures forall name :: Named(Insert(sorted, e), name) == Named(sorted, name) + if e.name == name then [e] else []
  {
    if sorted == [] {
      assert Insert(sorted, e) == [] + [e];
      NamedSnoc([], e);
    } else {
      var front, top := sorted[..|sorted| - 1], sorted[|sorted| - 1];
      assert sorted == front + [top];
      if Leq(top.name, e.name) {
        InsertAtEnd(sorted, e);
      } else {
        InsertFacts(front, e);
        InsertBefore(front, top, e, Insert(front, e));
      }
    }
  }

  lemma NamedSnoc(entries: seq<Entry>, e: Entry)
    ensures forall name :: Named(entries + [e], name) == Named(entries, name) + if e.name == name then [e] else []
  {
    assert (entries + [e])[..|entries|] == entries;
  }

  lemma InsertAtEnd(sorted: seq<Entry>, e: Entry)
    requires InOrder(sorted) && sorted != [] && Leq(sorted[|sorted| - 1].name, e.name)
    ensures InOrder(sorted + [e])
    ensures forall name :: Named(sorted + [e], name) == Named(sorted, name) + if e.name == name then [e] else []
  {
    NamedSnoc(sorted, e);
    forall i | 0 <= i < |sorted| ensures Leq(sorted[i].name, e.name) {
      if i < |sorted| - 1 {
        LeqTransitive(sorted[i].name, sorted[|sorted| - 1].name, e.name);
      }
    }
    InOrderSnoc(sorted, e);
  }

  lemma InOrderSnoc(sorted: seq<Entry>, e: Entry)
    requires InOrder(sorted) && forall i | 0 <= i < |sorted| :: Leq(sorted[i].name, e.name)
    ensures InOrder(sorted + [e])
  {
  }

  lemma {:induction false} InsertBefore(front: seq<Entry>, top: Entry, e: Entry, now: seq<Entry>)
    requires InOrder(front + [top]) && InOrder(now) && !Leq(top.name, e.name)
    requires multiset(now) == multiset(front) + multiset{e}
    requires forall name :: Named(now, name) == Named(front, name) + if e.name == name then [e] else []
    ensures InOrder(now + [top])
    ensures forall name ::
      Named(now + [top], name) == Named(front + [top], name) + if e.name == name then [e] else []
  {
    LeqTotal(top.name, e.name);
    forall i | 0 <= i < |now| ensures Leq(now[i].name, top.name) {
      AtMostTop(front, top, e, now, i);
    }
    NamedSnoc(now, top);
    NamedSnoc(front, top);
    assert top.name != e.name by { LeqTotal(top.name, top.name); }
  }

  lemma AtMostTop(front: seq<Entry>, top: Entry, e: Entry, now: seq<Entry>, i: nat)
    requires InOrder(front + [top]) && Leq(e.name, top.name)
    requires multiset(now) == multiset(front) + multiset{e} && i < |now|
    ensures Leq(now[i].name, top.name)
  {
    assert now[i] in multiset(now);
    assert now[i] in front || now[i] == e;
    if now[i] in front {
      var k :| 0 <= k < |front| && front[k] == now[i];
      assert (front + [top])[k] == now[i] && (front + [top])[|front|] == top;
    }
  }

  /** Sorting keeps exactly the entries, orders them by name and keeps the order of namesakes. */
  lemma {:induction false} ByNameFacts(entries: seq<Entry>)
    ensures InOrder(ByName(entries)) && multiset(ByName(entries)) == multiset(entries)
    ensures forall name :: Named(ByName(entries), name) == Named(entries, name)
  {
    if entries != [] {
      var front, last := entries[..|entries| - 1], entries[|entries| - 1];
      assert entries == front + [last];
      ByNameFacts(front);
      InsertFacts(ByName(front), last);
    }
  }

  // ----- the tables

  const ENV_HEAD := [
    "| Variable | Control | Values / default | What it does |",
    "| --- | --- | --- | --- |"
  ]
  const SETTING_HEAD := [
    "| Key | Control | Values / default | Example | What it does |",
    "| --- | --- | --- | --- | --- |"
  ]

  ghost predicate Labelled(labels: Labels, entries: seq<Entry>) {
    forall i | 0 <= i < |entries| :: entries[i].control in labels
  }

  function Cells(labels: Labels, e: Entry, withExample: bool): (cells: seq<string>)
    ensures cells != []
  {
    if withExample then SettingCells(labels, e) else EnvCells(labels, e)
  }

  function Each<T, U>(f: T -> U, xs: seq<T>): (r: seq<U>)
    ensures |r| == |xs| && forall i | 0 <= i < |xs| :: r[i] == f(xs[i])
  {
    seq(|xs|, i requires 0 <= i < |xs| => f(xs[i]))
  }

  function Render(labels: Labels, withExample: bool): Entry -> string {
    e => Row(Cells(labels, e, withExample))
  }

  /** One printed row per entry. */
  function Printed(labels: Labels, entries: seq<Entry>, withExample: bool): seq<string> {
    Each(Render(labels, withExample), entries)
  }

  method FlagsOf(e: Entry) returns (marks: string)
    ensures marks == Flags(e)
  {
    var words: seq<string> := [];
    if e.deprecated {
      words := words + ["**deprecated**"];
    }
    if e.readOnly {
      words := words + ["**read-only**"];
    }
    if e.managedOnly {
      words := words + ["**managed-only**"];
    }
    assert words == FlagWords(e);
    marks := JoinWords(words);
  }

  /** The cells both tables compute in the same way. */
  method ValuesAndPurpose(e: Entry) returns (values: string, purpose: string)
    ensures (if values == "" then DASH else values) == ValuesCell(e)
    ensures purpose == PurposeCell(e)
  {
    values := "";
    if e.values != [] {
      values := TickedList(e.values);
    }
    if e.defaultValue != "" {
      var shown := "default " + Ticked(e.defaultValue);
      values := if values != "" then values + "<br>" + shown else shown;
    }
    var note := FlagsOf(e);
    purpose := Esc(e.purpose);
    if note != "" {
      purpose := note + " " + DASH + " " + purpose;
    }
  }

  lemma LabelledByName(labels: Labels, entries: seq<Entry>)
    ensures Labelled(labels, ByName(entries)) <==> Labelled(labels, entries)
  {
    ByNameFacts(entries);
    var sorted := ByName(entries);
    assert forall e :: e in sorted <==> e in multiset(sorted);
    assert forall e :: e in entries <==> e in multiset(entries);
    assert Labelled(labels, sorted) <==> forall e | e in sorted :: e.control in labels;
    assert Labelled(labels, entries) <==> forall e | e in entries :: e.control in labels;
  }

  lemma LabelledStep(labels: Labels, entries: seq<Entry>, n: nat)
    requires n < |entries|
    ensures Labelled(labels, entries[..n + 1]) <==> Labelled(labels, entries[..n]) && entries[n].control in labels
  {
    var front := entries[..n];
    assert entries[..n + 1] == front + [entries[n]];
    assert forall i | 0 <= i < n :: (front + [entries[n]])[i] == front[i];
    assert (front + [entries[n]])[n] == entries[n];
  }

  lemma LabelledPrefix(labels: Labels, entries: seq<Entry>, n: nat)
    requires n <= |entries|
    ensures Labelled(labels, entries) ==> Labelled(labels, entries[..n])
  {
  }

  lemma OneLineMore(
    labels: Labels, head: seq<string>, entries: seq<Entry>, n: nat, withExample: bool)
    requires n < |entries|
    ensures head + Printed(labels, entries[..n + 1], withExample)
      == head + Printed(labels, entries[..n], withExample) + [Row(Cells(labels, entries[n], withExample))]
  {
    EachStep(Render(labels, withExample), entries, n);
  }

  lemma EachStep<T, U>(f: T -> U, xs: seq<T>, n: nat)
    requires n < |xs|
    ensures Each(f, xs[..n + 1]) == Each(f, xs[..n]) + [f(xs[n])]
  {
  }

  lemma EnvRow(a: string, b: string, c: string, d: string)
    ensures "| " + a + " | " + b + " | " + c + " | " + d + " |" == Row([a, b, c, d])
  {
    var p := Padded([a, b, c, d]);
    assert Join(p[3..], '|') == p[3];
    assert Join(p[2..], '|') == p[2] + "|" + Join(p[2..][1..], '|') && p[2..][1..] == p[3..];
    assert Join(p[1..], '|') == p[1] + "|" + Join(p[1..][1..], '|') && p[1..][1..] == p[2..];
  }

  method EnvLine(labels: Labels, e: Entry) returns (line: Option<string>)
    ensures line.Some? <==> e.control in labels
    ensures line.Some? ==> line.value == Row(Cells(labels, e, false))
  {
    var values, purpose := ValuesAndPurpose(e);
    if e.control !in labels {
      return None;
    }
    var shown := if values == "" then DASH else values;
    EnvRow(Ticked(e.name), labels[e.control], shown, purpose);
    line := Some("| " + Ticked(e.name) + " | " + labels[e.control] + " | " + shown + " | " + purpose + " |");
  }

  method AppendEnvLines(labels: Labels, head: seq<string>, sorted: seq<Entry>) returns (table: Option<seq<string>>)
    ensures table.Some? <==> Labelled(labels, sorted)
    ensures table.Some? ==> table.value == head + Printed(labels, sorted, false)
  {
    var lines := head;
    for n := 0 to |sorted|
      invariant Labelled(labels, sorted[..n])
      invariant lines == head + Printed(labels, sorted[..n], false)
    {
      var line := EnvLine(labels, sorted[n]);
      LabelledStep(labels, sorted, n);
      LabelledPrefix(labels, sorted, n + 1);
      if line.None? {
        return None;
      }
      OneLineMore(labels, head, sorted, n, false);
      lines := lines + [line.value];
    }
    assert sorted[..|sorted|] == sorted;
    table := Some(lines);
  }

  /** `env_table`; None is the KeyError of an unknown control. */
  method EnvTable(entries: seq<Entry>) returns (table: Option<seq<string>>)
    ensures table.Some? <==> Labelled(CONTROL_LABEL, entries)
    ensures table.Some? ==> table.value == ENV_HEAD + Printed(CONTROL_LABEL, ByName(entries), false)
  {
    LabelledByName(CONTROL_LABEL, entries);
    table := AppendEnvLines(CONTROL_LABEL, ENV_HEAD, ByName(entries));
  }

  lemma SettingRow(a: string, b: string, c: string, d: string, x: string)
    ensures "| " + a + " | " + b + " | " + c + " | " + d + " | " + x + " |" == Row([a, b, c, d, x])
  {
    EnvRow(a, b, c, d);
    RowSnoc([a, b, c, d], x);
    assert [a, b, c, d] + [x] == [a, b, c, d, x];
  }

  lemma RowSnoc(cells: seq<string>, x: string)
    requires cells != []
    ensures Row(cells + [x]) == Row(cells) + " " + x + " |"
  {
    assert Padded(cells + [x]) == Padded(cells) + [" " + x + " "];
    JoinSnoc(Padded(cells), " " + x + " ", '|');
  }

  lemma {:induction false} JoinSnoc(xs: seq<string>, x: string, c: char)
    requires xs != []
    ensures Join(xs + [x], c) == Join(xs, c) + [c] + x
  {
    assert (xs + [x])[1..] == xs[1..] + [x];
    if |xs| == 1 {
      assert xs[1..] + [x] == [x];
    } else {
      JoinSnoc(xs[1..], x, c);
    }
  }

  method SettingLine(labels: Labels, e: Entry) returns (line: Option<string>)
    ensures line.Some? <==> e.control in labels
    ensures line.Some? ==> line.value == Row(Cells(labels, e, true))
  {
    var values, purpose := ValuesAndPurpose(e);
    if e.control !in labels {
      return None;
    }
    var shown := if values == "" then DASH else values;
    var example := Esc(e.example);
    example := if example == "" then DASH else example;
    SettingRow(Ticked(e.name), labels[e.control], shown, example, purpose);
    line := Some(
      "| " + Ticked(e.name) + " | " + labels[e.control]
      + " | " + shown + " | " + example + " | " + purpose + " |");
  }

  method AppendSettingLines(labels: Labels, head: seq<string>, sorted: seq<Entry>) returns (table: Option<seq<string>>)
    ensures table.Some? <==> Labelled(labels, sorted)
    ensures table.Some? ==> table.value == head + Printed(labels, sorted, true)
  {
    var lines := head;
    for n := 0 to |sorted|
      invariant Labelled(labels, sorted[..n])
      invariant lines == head + Printed(labels, sorted[..n], true)
    {
      var line := SettingLine(labels, sorted[n]);
      LabelledStep(labels, sorted, n);
      LabelledPrefix(labels, sorted, n + 1);
      if line.None? {
        return None;
      }
      OneLineMore(labels, head, sorted, n, true);
      lines := lines + [line.value];
    }
    assert sorted[..|sorted|] == sorted;
    table := Some(lines);
  }

  /** `setting_table`; None is the KeyError of an unknown control. */
  method SettingTable(entries: seq<Entry>) returns (table: Option<seq<string>>)
    ensures table.Some? <==> Labelled(CONTROL_LABEL, entries)
    ensures table.Some? ==> table.value == SETTING_HEAD + Printed(CONTROL_LABEL, ByName(entries), true)
  {
    LabelledByName(CONTROL_LABEL, entries);
    table := AppendSettingLines(CONTROL_LABEL, SETTING_HEAD, ByName(entries));
  }

  // ----- the tables read back

  /** The text after a table does not continue it. */
  ghost predicate EndsTable(after: seq<string>) {
    after == [] || !("|" <= after[0])
  }

  function ParseAll(lines: seq<string>): seq<seq<string>> {
    Each(ParseRow, lines)
  }

  lemma {:induction false} RowsOfBlock(before: seq<string>, block: seq<string>, after: seq<string>)
    requires EndsTable(after) && forall i | 0 <= i < |block| :: "|" <= block[i]
    ensures Rows(before + block + after, |before|) == ParseAll(block)
    decreases |block|
  {
    if block == [] {
      NoRows(before + block + after, |before|, after);
    } else {
      var next := before + [block[0]];
      assert before + block + after == next + block[1..] + after;
      RowsOfBlock(next, block[1..], after);
      assert (before + block + after)[|before|] == block[0];
      assert ParseAll(block) == [ParseRow(block[0])] + ParseAll(block[1..]);
    }
  }

  lemma NoRows(lines: seq<string>, i: nat, after: seq<string>)
    requires i <= |lines| && lines[i..] == after && EndsTable(after)
    ensures Rows(lines, i) == []
  {
    assert after != [] ==> lines[i] == after[0];
  }

  /** The trimmed cells of every entry, in the order given. */
  function Trimmed(labels: Labels, entries: seq<Entry>, withExample: bool): seq<seq<string>> {
    Each(e => StripAll(Cells(labels, e, withExample)), entries)
  }

  ghost predicate AllPlain(entries: seq<Entry>, withExample: bool) {
    forall i | 0 <= i < |entries| :: Plain(entries[i], withExample)
  }

  lemma PrintedRowReadsBack(labels: Labels, e: Entry, withExample: bool)
    requires PlainLabels(labels)
    ensures ParseRow(Row(Cells(labels, e, withExample))) == StripAll(Cells(labels, e, withExample))
      <==> Plain(e, withExample)
  {
    RowRoundTrip(Cells(labels, e, withExample));
    if withExample {
      SettingCellsArePlain(labels, e);
    } else {
      CellsArePlain(labels, e);
    }
  }

  lemma PrintedRowsReadBack(labels: Labels, sorted: seq<Entry>, withExample: bool)
    requires PlainLabels(labels)
    ensures ParseAll(Printed(labels, sorted, withExample)) == Trimmed(labels, sorted, withExample)
      <==> AllPlain(sorted, withExample)
  {
    var rows, trimmed := ParseAll(Printed(labels, sorted, withExample)), Trimmed(labels, sorted, withExample);
    forall i | 0 <= i < |sorted| ensures rows[i] == trimmed[i] <==> Plain(sorted[i], withExample) {
      PrintedRowReadsBack(labels, sorted[i], withExample);
    }
    assert rows == trimmed <==> forall i | 0 <= i < |sorted| :: rows[i] == trimmed[i];
  }

  lemma AllPlainByName(entries: seq<Entry>, withExample: bool)
    ensures AllPlain(ByName(entries), withExample) <==> AllPlain(entries, withExample)
  {
    ByNameFacts(entries);
    var sorted := ByName(entries);
    assert forall e :: e in sorted <==> e in multiset(sorted);
    assert forall e :: e in entries <==> e in multiset(entries);
    assert AllPlain(sorted, withExample) <==> forall e | e in sorted :: Plain(e, withExample);
    assert AllPlain(entries, withExample) <==> forall e | e in entries :: Plain(e, withExample);
  }

  lemma BlockReadsBack(
    labels: Labels, before: seq<string>, head: seq<string>, sorted: seq<Entry>, after: seq<string>, withExample: bool)
    requires |head| == 2 && EndsTable(after)
    ensures Rows(before + (head + Printed(labels, sorted, withExample)) + after, |before| + 2)
         == ParseAll(Printed(labels, sorted, withExample))
  {
    StartWithPipe(labels, sorted, withExample);
    RowsAfterHead(before, head, Printed(labels, sorted, withExample), after);
  }

  lemma {:induction false} RowsAfterHead(before: seq<string>, head: seq<string>, block: seq<string>, after: seq<string>)
    requires |head| == 2 && EndsTable(after) && forall i | 0 <= i < |block| :: "|" <= block[i]
    ensures Rows(before + (head + block) + after, |before| + 2) == ParseAll(block)
  {
    RowsOfBlock(before + head, block, after);
    HeadJoinsBefore(before, head, block, after);
  }

  lemma HeadJoinsBefore<T>(before: seq<T>, head: seq<T>, block: seq<T>, after: seq<T>)
    ensures before + (head + block) + after == (before + head) + block + after
  {
  }

  lemma StartWithPipe(labels: Labels, sorted: seq<Entry>, withExample: bool)
    ensures forall i | 0 <= i < |sorted| :: "|" <= Printed(labels, sorted, withExample)[i]
  {
    forall i | 0 <= i < |sorted| ensures "|" <= Printed(labels, sorted, withExample)[i] {
      RowStartsWithPipe(Cells(labels, sorted[i], withExample));
    }
  }

  lemma RowStartsWithPipe(cells: seq<string>)
    ensures "|" <= Row(cells)
  {
  }

  lemma TableReadsBack(
    labels: Labels, before: seq<string>, head: seq<string>, entries: seq<Entry>, after: seq<string>, withExample: bool)
    requires |head| == 2 && EndsTable(after) && PlainLabels(labels)
    ensures Rows(before + (head + Printed(labels, ByName(entries), withExample)) + after, |before| + 2)
         == Trimmed(labels, ByName(entries), withExample)
      <==> AllPlain(entries, withExample)
  {
    BlockReadsBack(labels, before, head, ByName(entries), after, withExample);
    PrintedRowsReadBack(labels, ByName(entries), withExample);
    AllPlainByName(entries, withExample);
  }

  /** A printed table, wherever it stands in a document, reads back as the trimmed cells of its
      entries in name order, exactly when no printed field of any entry holds a pipe. */
  lemma TableRoundTrip(
    before: seq<string>, head: seq<string>, entries: seq<Entry>, after: seq<string>, withExample: bool)
    requires |head| == 2 && EndsTable(after)
    ensures Rows(before + (head + Printed(CONTROL_LABEL, ByName(entries), withExample)) + after, |before| + 2)
         == Trimmed(CONTROL_LABEL, ByName(entries), withExample)
      <==> AllPlain(entries, withExample)
  {
    LabelsArePlain();
    TableReadsBack(CONTROL_LABEL, before, head, entries, after, withExample);
  }
}
