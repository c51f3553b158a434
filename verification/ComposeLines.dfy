/** The lexical side of the Compose scanners: what one line of text looks like to them. */
module ComposeLines {
  import opened Options
  import opened Text
  import opened ComposeScan
  import opened ComposeRender

  predicate IsQuote(c: char) {
    c == '"' || c == '\''
  }

  predicate IsBrace(c: char) {
    c == '{' || c == '}'
  }

  /** strings.Trim with the characters of a predicate. */
  function TrimBy(drop: char -> bool, s: string): (r: string)
    ensures (s == "" || (!drop(s[0]) && !drop(s[|s| - 1]))) ==> r == s
  {
    if s == "" then ""
    else if drop(s[0]) then TrimBy(drop, s[1..])
    else if drop(s[|s| - 1]) then TrimBy(drop, s[..|s| - 1])
    else s
  }

  /** The index of the first occurrence of a non-empty text, or |s|. */
  function IndexOfText(s: string, t: string): (i: nat)
    ensures i <= |s|
    ensures (t != "" && t[0] !in s) ==> i == |s|
  {
    if s == "" || t <= s then 0 else 1 + IndexOfText(s[1..], t)
  }

  /** composefile.CleanScalar: unquoted, without a trailing comment. */
  function CleanScalar(value: string): string {
    Uncommented(TrimBy(IsQuote, TrimSpace(value)), " #")
  }

  function Uncommented(v: string, mark: string): string {
    var i := IndexOfText(v, mark);
    TrimBy(IsQuote, if i < |v| then TrimSpace(v[..i]) else v)
  }

  function Indent(line: string): nat {
    if line != "" && line[0] == ' ' then 1 + Indent(line[1..]) else 0
  }

  /** composeFlowStyleDependencyCondition. */
  function Flow(text: string): Option<(string, string)> {
    var colon := IndexOf(text, ':');
    if colon == |text| then None else FlowRest(text[..colon], text[colon + 1..])
  }

  function FlowRest(dependency: string, tail: string): Option<(string, string)> {
    if IndexOfText(tail, "condition") == |tail| then None
    else
      var rest := TrimSpace(tail);
      if InBraces(rest) then FlowCondition(dependency, Split(TrimBy(IsBrace, rest), ',')) else None
  }

  predicate InBraces(rest: string) {
    HasPrefix(rest, "{") && HasSuffix(rest, "}")
  }

  function FlowCondition(dependency: string, fields: seq<string>): Option<(string, string)> {
    if fields == [] then None
    else
      var colon := IndexOf(fields[0], ':');
      if colon < |fields[0]| && CleanScalar(fields[0][..colon]) == "condition" then
        Some((CleanScalar(dependency), CleanScalar(fields[0][colon + 1..])))
      else FlowCondition(dependency, fields[1..])
  }

  /** The key a line ends with, as it is written. */
  function RawKey(text: string): Option<string> {
    if HasSuffix(text, ":") then Some(TrimSpace(text[..|text| - 1])) else None
  }

  function RowOf(indent: nat, text: string): Row {
    var raw := RawKey(text);
    Row(indent, text == "services:", HasPrefix(text, "-"),
        if raw.Some? then Some(CleanScalar(raw.value)) else None, if raw.Some? then raw.value else "",
        text == "depends_on:" || text == "depends_on",
        text == "build:" || HasPrefix(text, "build: "),
        Flow(text),
        if HasPrefix(text, "condition:") then Some(CleanScalar(TrimSpace(text[10..]))) else None)
  }

  /** A line as the scanners see it, unless it is blank or a comment. */
  function View(line: string): Option<Row> {
    var text := TrimSpace(line);
    if text == "" || HasPrefix(text, "#") then None else Some(RowOf(Indent(line), text))
  }

  /** The rows of the significant lines. */
  function Significant(view: string -> Option<Row>, lines: seq<string>): seq<Row>
    decreases |lines|
  {
    if lines == [] then []
    else
      var init, last := Significant(view, lines[..|lines| - 1]), view(lines[|lines| - 1]);
      if last.Some? then init + [last.value] else init
  }

  /** parseComposeCompletedDependencyServices. */
  method CompletedDependencyServices(view: string -> Option<Row>, lines: seq<string>) returns (out: set<string>)
    ensures out == Found(Start(), Significant(view, lines))
  {
    out := {};
    var scanner := new Scanner();
    for i := 0 to |lines|
      invariant scanner.Now() == Run(Start(), Significant(view, lines[..i]))
      invariant out == Found(Start(), Significant(view, lines[..i]))
    {
      assert lines[..i + 1][..i] == lines[..i];
      var row := view(lines[i]);
      if row.Some? {
        ghost var rows := Significant(view, lines[..i]);
        assert (rows + [row.value])[..|rows|] == rows;
        var service := scanner.CompletedDependency(row.value);
        if service != "" {
          out := out + {service};
        }
      }
    }
    assert lines[..|lines|] == lines;
  }

  // ----- Conditions in braces -----

  predicate IsConditionField(field: string) {
    IndexOf(field, ':') < |field| && CleanScalar(field[..IndexOf(field, ':')]) == "condition"
  }

  lemma FlowConditionStep(dependency: string, fields: seq<string>)
    requires fields != []
    ensures FlowCondition(dependency, fields) ==
      if IsConditionField(fields[0]) then
        Some((CleanScalar(dependency), CleanScalar(fields[0][IndexOf(fields[0], ':') + 1..])))
      else FlowCondition(dependency, fields[1..])
  {
  }

  /** Of several fields in braces the first one called condition counts; without one there is no condition. */
  lemma {:induction false} FirstConditionCounts(dependency: string, fields: seq<string>) returns (k: nat)
    ensures k <= |fields| && NoneBefore(fields, k, IsConditionField)
    ensures k < |fields| ==> IsConditionField(fields[k])
    ensures k < |fields| ==> FlowCondition(dependency, fields) == Some((CleanScalar(dependency), CleanScalar(fields[k][IndexOf(fields[k], ':') + 1..])))
    ensures k == |fields| ==> FlowCondition(dependency, fields) == None
  {
    k := 0;
    if fields != [] {
      FlowConditionStep(dependency, fields);
      if !IsConditionField(fields[0]) {
        var rest := FirstConditionCounts(dependency, fields[1..]);
        NoneBeforeNext(fields, rest, IsConditionField);
        k := rest + 1;
      }
    }
  }

  // ----- Lines with plain names -----

  predicate PlainChar(c: char) {
    'a' <= c <= 'z' || 'A' <= c <= 'Z' || '0' <= c <= '9' || c == '.' || c == '_' || c == '-'
  }

  predicate Plain(name: string) {
    name != "" && name[0] != '-' && forall i | 0 <= i < |name| :: PlainChar(name[i])
  }

  lemma PlainCharIsNothingElse(c: char)
    requires PlainChar(c)
    ensures !IsSpace(c) && !IsQuote(c)
  {
  }

  lemma NotIn(name: string, c: char)
    requires Plain(name) && !PlainChar(c)
    ensures c !in name
  {
  }

  lemma PlainIsTrimmed(name: string)
    requires Plain(name)
    ensures Trimmed(name) && ':' !in name && ' ' !in name
  {
    PlainCharIsNothingElse(name[0]);
    PlainCharIsNothingElse(name[|name| - 1]);
    NotIn(name, ':');
    NotIn(name, ' ');
  }

  lemma PlainIsClean(name: string)
    requires Plain(name)
    ensures Trimmed(name) && CleanScalar(name) == name && ':' !in name && ' ' !in name
  {
    PlainIsTrimmed(name);
    PlainCharIsNothingElse(name[0]);
    PlainCharIsNothingElse(name[|name| - 1]);
    assert " #"[0] == ' ';
    assert IndexOfText(name, " #") == |name|;
  }

  /** Quotes around a plain name or value are not part of it. */
  lemma QuotedScalar(name: string, quote: char, text: string)
    requires Plain(name) && IsQuote(quote) && text == [quote] + name + [quote]
    ensures CleanScalar(text) == name
  {
    assert text[0] == quote && text[|text| - 1] == quote && Trimmed(text);
    assert text[1..] == name + [quote];
    assert (name + [quote])[..|name|] == name;
    PlainIsTrimmed(name);
    PlainCharIsNothingElse(name[0]);
    PlainCharIsNothingElse(name[|name| - 1]);
    assert TrimBy(IsQuote, text) == name;
    assert " #"[0] == ' ';
  }

  lemma {:induction false} TextNotBefore(s: string, t: string, k: nat)
    requires k <= |s| && t != "" && t[0] !in s[..k]
    ensures IndexOfText(s, t) >= k
  {
    if k > 0 {
      assert s[0] in s[..k];
      assert s[1..][..k - 1] == s[..k][1..];
      TextNotBefore(s[1..], t, k - 1);
    }
  }

  /** Nor is a comment behind it. */
  lemma CommentedScalar(name: string, comment: string, mark: string, text: string)
    requires Plain(name) && Plain(comment) && mark == " #" && text == name + (mark + comment)
    ensures CleanScalar(text) == name
  {
    PlainCharIsNothingElse(name[0]);
    PlainCharIsNothingElse(name[|name| - 1]);
    PlainCharIsNothingElse(comment[|comment| - 1]);
    assert text[0] == name[0] && text[|text| - 1] == comment[|comment| - 1] && Trimmed(text);
    PlainIsTrimmed(name);
    assert text[..|name|] == name && text[|name|..] == mark + comment && mark[0] == ' ';
    TextNotBefore(text, mark, |name|);
    TextFound(text, mark, |name|);
    UncommentedBefore(name, mark, text);
    assert TrimBy(IsQuote, TrimSpace(text)) == text;
  }

  lemma UncommentedBefore(name: string, mark: string, text: string)
    requires IndexOfText(text, mark) == |name| < |text| && text[..|name|] == name
    requires Trimmed(name) && name != "" && !IsQuote(name[0]) && !IsQuote(name[|name| - 1])
    ensures Uncommented(text, mark) == name
  {
  }

  lemma {:induction false} IndentOf(n: nat, text: string)
    requires text == "" || text[0] != ' '
    ensures Indent(Spaces(n) + text) == n
  {
    if n == 0 {
      assert Spaces(0) + text == text;
    } else {
      assert (Spaces(n) + text)[1..] == Spaces(n - 1) + text;
      IndentOf(n - 1, text);
    }
  }

  lemma Indented(n: nat, text: string)
    requires text != "" && Trimmed(text) && text[0] != '#'
    ensures View(Spaces(n) + text) == Some(RowOf(n, text))
  {
    TrimIndented(n, text);
    IndentOf(n, text);
  }

  lemma SameKey(name: string, key: string, text: string, whole: string)
    requires text == name + [':'] && whole == key + [':']
    ensures (text == whole) == (name == key)
  {
    assert text[..|text| - 1] == name && whole[..|whole| - 1] == key;
  }

  lemma NoPrefix(text: string, prefix: string, c: char)
    requires c !in text && c in prefix
    ensures !HasPrefix(text, prefix)
  {
  }

  lemma NameFlags(name: string, text: string)
    requires Plain(name) && text == name + [':']
    ensures (text == "services:") == (name == "services")
    ensures (text == "depends_on:" || text == "depends_on") == (name == "depends_on")
    ensures (text == "build:" || HasPrefix(text, "build: ")) == (name == "build")
    ensures !HasPrefix(text, "-")
  {
    SameKey(name, "services", text, "services:");
    SameKey(name, "depends_on", text, "depends_on:");
    SameKey(name, "build", text, "build:");
    assert text[|text| - 1] == ':' && text[0] == name[0];
    PlainIsClean(name);
    var build := "build: ";
    assert build[6] == ' ';
    assert forall i | 0 <= i < |name| :: PlainChar(name[i]);
    assert ' ' !in text;
    NoPrefix(text, build, ' ');
  }

  lemma NameKey(name: string, text: string)
    requires Plain(name) && text == name + [':']
    ensures RawKey(text) == Some(name) && CleanScalar(name) == name
  {
    PlainIsClean(name);
    assert text[..|text| - 1] == name;
    assert text[|text| - 1..] == ":";
  }

  lemma NameFlow(name: string, text: string)
    requires Plain(name) && text == name + [':']
    ensures Flow(text) == None
  {
    PlainIsTrimmed(name);
    var rest := text[|name| + 1..];
    assert text == name + [':'] + rest && rest == "";
    IndexOfAppend(name, ':', rest);
  }

  lemma NameCondition(name: string, text: string, key: string, whole: string)
    requires Plain(name) && text == name + [':'] && key == "condition" && whole == key + [':']
    ensures HasPrefix(text, whole) == (name == key)
    ensures name == key ==> text[10..] == ""
  {
    PlainIsTrimmed(name);
    if HasPrefix(text, whole) {
      assert text[|key|] == whole[|key|] == ':';
      assert |name| == |key|;
      assert name == text[..|key|] == whole[..|key|] == key;
    }
  }

  lemma EmptyScalar(s: string)
    requires s == ""
    ensures CleanScalar(TrimSpace(s)) == ""
  {
    assert TrimSpace(s) == s && TrimBy(IsQuote, s) == s;
    UncommentedEmpty(s, " #");
  }

  lemma UncommentedEmpty(v: string, mark: string)
    requires v == ""
    ensures Uncommented(v, mark) == ""
  {
  }

  lemma NameFields(n: nat, name: string, text: string)
    requires Plain(name) && text == name + [':']
    ensures var row := RowOf(n, text);
      && row.services == NameRow(n, name).services && row.dash == NameRow(n, name).dash
      && row.dependsOn == NameRow(n, name).dependsOn && row.build == NameRow(n, name).build
  {
    NameFlags(name, text);
  }

  lemma NameValues(n: nat, name: string, text: string)
    requires Plain(name) && text == name + [':']
    ensures var row := RowOf(n, text);
      && row.key == NameRow(n, name).key && row.rawKey == NameRow(n, name).rawKey
      && row.flow == NameRow(n, name).flow && row.condition == NameRow(n, name).condition
  {
    NameKey(name, text);
    NameFlow(name, text);
    NameCondition(name, text, "condition", "condition:");
    if name == "condition" {
      EmptyScalar(text[10..]);
    }
  }

  /** A plain name with a colon reads as that name's row. */
  lemma NameLine(n: nat, name: string)
    requires Plain(name)
    ensures View(Spaces(n) + (name + [':'])) == Some(NameRow(n, name))
  {
    var text := name + [':'];
    assert text[0] == name[0] && PlainChar(name[0]) && text[|text| - 1] == ':';
    Indented(n, text);
    NameFields(n, name, text);
    NameValues(n, name, text);
  }

  lemma NoMapping(key: string, value: string, text: string)
    requires ':' !in key && Plain(value) && text == key + [':'] + ([' '] + value)
    ensures Flow(text) == None
  {
    PlainIsClean(value);
    var rest := [' '] + value;
    IndexOfAppend(key, ':', rest);
    assert text[|key| + 1..] == rest;
    BlankThenPlain(rest, value);
  }

  lemma BlankThenPlain(rest: string, value: string)
    requires Plain(value) && rest == [' '] + value
    ensures TrimSpace(rest) == value && !HasPrefix(value, "{") && CleanScalar(TrimSpace(rest)) == value
  {
    PlainIsClean(value);
    assert rest == Spaces(1) + value;
    TrimIndented(1, value);
    assert PlainChar(value[0]);
  }

  lemma ConditionRest(key: string, value: string, text: string)
    requires key == "condition" && Plain(value) && text == key + [':'] + ([' '] + value)
    ensures Flow(text) == None
    ensures HasPrefix(text, "condition:") && CleanScalar(TrimSpace(text[10..])) == value
  {
    assert ':' !in key by {
      assert key == ['c', 'o', 'n', 'd', 'i', 't', 'i', 'o', 'n'];
    }
    NoMapping(key, value, text);
    assert text[..10] == key + [':'];
    assert "condition:" == key + [':'];
    assert text[10..] == [' '] + value;
    BlankThenPlain(text[10..], value);
  }

  lemma ConditionFlags(key: string, value: string, text: string)
    requires key == "condition" && Plain(value) && text == key + [':'] + ([' '] + value)
    ensures RawKey(text) == None && text != "services:" && !HasPrefix(text, "-")
    ensures text != "depends_on:" && text != "depends_on" && text != "build:" && !HasPrefix(text, "build: ")
  {
    assert text[0] == 'c';
    assert text[|text| - 1] == value[|value| - 1] && PlainChar(value[|value| - 1]);
    assert "services:"[0] == 's' && "depends_on:"[0] == 'd' && "depends_on"[0] == 'd' && "build:"[0] == 'b' && "build: "[0] == 'b';
  }

  /** A condition line with a plain value reads as that condition. */
  lemma ConditionLine(n: nat, value: string)
    requires Plain(value)
    ensures View(Spaces(n) + ("condition" + [':'] + ([' '] + value))) == Some(ConditionRow(n, value))
  {
    var text := "condition" + [':'] + ([' '] + value);
    assert text[|text| - 1] == value[|value| - 1] && PlainChar(value[|value| - 1]) && text[0] == 'c';
    Indented(n, text);
    ConditionRest("condition", value, text);
    ConditionFlags("condition", value, text);
  }

  lemma DashText(text: string)
    requires text != "" && text[0] == '-'
    ensures HasPrefix(text, "-") && text != "services:" && text != "depends_on:" && text != "depends_on"
    ensures text != "build:" && !HasPrefix(text, "build: ")
  {
    assert "-"[0] == '-' && text[..1] == "-";
    assert "services:"[0] == 's' && "depends_on:"[0] == 'd' && "depends_on"[0] == 'd' && "build:"[0] == 'b' && "build: "[0] == 'b';
  }

  /** A line that starts with a dash reads as an item of a list. */
  lemma DashLine(n: nat, text: string)
    requires text != "" && text[0] == '-' && Trimmed(text)
    ensures var row := View(Spaces(n) + text);
      row.Some? && row.value.indent == n && row.value.dash && !row.value.services && !row.value.build && !row.value.dependsOn
  {
    Indented(n, text);
    DashText(text);
  }

  lemma QuotedText(name: string, quote: char, text: string)
    requires Plain(name) && IsQuote(quote) && text == [quote] + name + [quote] + [':']
    ensures Trimmed(text) && text[0] == quote && RawKey(text) == Some([quote] + name + [quote])
    ensures !HasPrefix(text, "-")
  {
    var raw := [quote] + name + [quote];
    assert text[|text| - 1] == ':' && text[|text| - 1..] == ":" && text[..|text| - 1] == raw;
    assert raw[0] == quote && raw[|raw| - 1] == quote && Trimmed(raw);
    assert "-"[0] == '-';
  }

  /** A quoted name with a colon reads as the name itself; as it is written, the key has its quotes. */
  lemma QuotedNameLine(n: nat, name: string, quote: char)
    requires Plain(name) && IsQuote(quote)
    ensures var row := View(Spaces(n) + ([quote] + name + [quote] + [':']));
      row.Some? && row.value.indent == n && !row.value.dash && row.value.key == Some(name) && row.value.rawKey == [quote] + name + [quote]
  {
    var text := [quote] + name + [quote] + [':'];
    QuotedText(name, quote, text);
    QuotedScalar(name, quote, [quote] + name + [quote]);
    Indented(n, text);
  }

  lemma QuotedConditionText(key: string, value: string, quote: char, quoted: string, text: string)
    requires key == "condition" && Plain(value) && IsQuote(quote) && quoted == [quote] + value + [quote]
    requires text == key + [':'] + ([' '] + quoted)
    ensures Trimmed(text) && text[0] == 'c' && HasPrefix(text, "condition:") && text[10..] == [' '] + quoted
  {
    assert text[0] == 'c' && text[|text| - 1] == quote;
    assert text[..10] == key + [':'] && "condition:" == key + [':'];
  }

  lemma QuotedAfterBlank(value: string, quote: char, quoted: string, rest: string)
    requires Plain(value) && IsQuote(quote) && quoted == [quote] + value + [quote] && rest == [' '] + quoted
    ensures CleanScalar(TrimSpace(rest)) == value
  {
    assert quoted[0] == quote && quoted[|quoted| - 1] == quote && Trimmed(quoted);
    assert rest == Spaces(1) + quoted;
    TrimIndented(1, quoted);
    QuotedScalar(value, quote, quoted);
  }

  /** A quoted condition reads as the condition itself. */
  lemma QuotedConditionLine(n: nat, value: string, quote: char, quoted: string)
    requires Plain(value) && IsQuote(quote) && quoted == [quote] + value + [quote]
    ensures var row := View(Spaces(n) + ("condition" + [':'] + ([' '] + quoted)));
      row.Some? && row.value.indent == n && row.value.condition == Some(value)
  {
    var text := "condition" + [':'] + ([' '] + quoted);
    QuotedConditionText("condition", value, quote, quoted, text);
    QuotedAfterBlank(value, quote, quoted, text[10..]);
    Indented(n, text);
  }

  lemma BuildText(key: string, value: string, text: string)
    requires key == "build" && value != "" && Trimmed(value) && text == key + [':'] + ([' '] + value)
    ensures Trimmed(text) && text[0] == 'b' && HasPrefix(text, "build: ")
    ensures text != "services:" && text != "depends_on:" && text != "depends_on" && !HasPrefix(text, "-")
  {
    assert text[0] == 'b' && text[|text| - 1] == value[|value| - 1];
    assert "build: " == key + [':'] + [' '] && text[..7] == key + [':'] + [' '];
    assert "services:"[0] == 's' && "depends_on:"[0] == 'd' && "depends_on"[0] == 'd';
  }

  /** A line "build: ." - or with any other value - reads as a build key, and as no header, dash or depends_on key. */
  lemma BuildLine(n: nat, value: string)
    requires value != "" && Trimmed(value)
    ensures var row := View(Spaces(n) + ("build" + [':'] + ([' '] + value)));
      row.Some? && row.value.indent == n && row.value.build && !row.value.dash && !row.value.services && !row.value.dependsOn
  {
    var text := "build" + [':'] + ([' '] + value);
    BuildText("build", value, text);
    Indented(n, text);
  }

  // ----- A dependency on one line -----

  lemma {:induction false} TextFound(s: string, t: string, k: nat)
    requires k < |s| && t != "" && t <= s[k..]
    ensures IndexOfText(s, t) <= k
  {
    if k > 0 && !(t <= s) {
      assert s[1..][k - 1..] == s[k..];
      TextFound(s[1..], t, k - 1);
    }
  }

  lemma {:induction false} TextAbsent(s: string, t: string, i: nat)
    requires i < |t| && t[i] !in s
    ensures IndexOfText(s, t) == |s|
  {
    if s != "" {
      assert !(t <= s);
      TextAbsent(s[1..], t, i);
    }
  }

  /** The braces around "condition: value" and the one field in them. */
  lemma BracedField(key: string, value: string, inner: string, rest: string)
    requires key == "condition" && Plain(value) && inner == key + [':'] + ([' '] + value)
    requires rest == ['{'] + inner + ['}']
    ensures Trimmed(rest) && TrimBy(IsBrace, rest) == inner
    ensures ',' !in inner && Split(inner, ',') == [inner]
  {
    assert PlainChar(value[|value| - 1]) && inner[0] == 'c' && inner[|inner| - 1] == value[|value| - 1];
    assert rest[1..] == inner + ['}'];
    assert (inner + ['}'])[..|inner|] == inner;
    NotIn(value, ',');
    assert key == ['c', 'o', 'n', 'd', 'i', 't', 'i', 'o', 'n'];
    SplitJoin([inner], ',');
  }

  lemma KeyIsPlain(key: string)
    requires key == "condition"
    ensures Plain(key)
  {
    assert key == ['c', 'o', 'n', 'd', 'i', 't', 'i', 'o', 'n'];
  }

  lemma BlankScalar(value: string, rest: string)
    requires Plain(value) && rest == [' '] + value
    ensures CleanScalar(rest) == value
  {
    BlankThenPlain(rest, value);
    PlainIsClean(value);
    assert TrimSpace(value) == value;
  }

  lemma ConditionField(dependency: string, key: string, value: string, inner: string)
    requires Plain(dependency) && key == "condition" && Plain(value) && inner == key + [':'] + ([' '] + value)
    ensures FlowCondition(dependency, [inner]) == Some((dependency, value))
  {
    KeyIsPlain(key);
    PlainIsClean(key);
    PlainIsClean(dependency);
    IndexOfAppend(key, ':', [' '] + value);
    assert inner[..|key|] == key && inner[|key| + 1..] == [' '] + value;
    BlankScalar(value, inner[|key| + 1..]);
  }

  lemma TailShape(tail: string, key: string, value: string, inner: string, rest: string)
    requires key == "condition" && Plain(value) && inner == key + [':'] + ([' '] + value)
    requires rest == ['{'] + inner + ['}'] && tail == [' '] + rest
    ensures TrimSpace(tail) == rest && IndexOfText(tail, key) < |tail|
  {
    BracedField(key, value, inner, rest);
    assert tail == Spaces(1) + rest;
    TrimIndented(1, rest);
    assert tail[2..][..|key|] == key;
    TextFound(tail, key, 2);
  }

  lemma OneLineFlow(name: string, key: string, value: string, inner: string, rest: string, text: string)
    requires Plain(name) && key == "condition" && Plain(value) && inner == key + [':'] + ([' '] + value)
    requires rest == ['{'] + inner + ['}'] && text == name + [':'] + ([' '] + rest)
    ensures Flow(text) == Some((name, value))
  {
    var tail := [' '] + rest;
    PlainIsTrimmed(name);
    IndexOfAppend(name, ':', tail);
    assert text[|name| + 1..] == tail && text[..|name|] == name;
    OneLineRest(name, tail, key, value, inner, rest);
  }

  lemma OneLineRest(name: string, tail: string, key: string, value: string, inner: string, rest: string)
    requires Plain(name) && key == "condition" && Plain(value) && inner == key + [':'] + ([' '] + value)
    requires rest == ['{'] + inner + ['}'] && tail == [' '] + rest
    ensures FlowRest(name, tail) == Some((name, value))
  {
    TailShape(tail, key, value, inner, rest);
    BracedField(key, value, inner, rest);
    BracedIsInBraces(inner, rest);
    FieldsInBraces(name, tail, inner, rest);
    ConditionField(name, key, value, inner);
  }

  lemma BracedIsInBraces(inner: string, rest: string)
    requires rest == ['{'] + inner + ['}']
    ensures InBraces(rest)
  {
    assert rest[..1] == ['{'] && rest[|rest| - 1..] == ['}'];
  }

  lemma FieldsInBraces(name: string, tail: string, inner: string, rest: string)
    requires IndexOfText(tail, "condition") < |tail| && TrimSpace(tail) == rest && InBraces(rest)
    requires TrimBy(IsBrace, rest) == inner && Split(inner, ',') == [inner]
    ensures FlowRest(name, tail) == FlowCondition(name, [inner])
  {
  }

  lemma KeyPrefix(name: string, key: string, tail: string, text: string)
    requires ':' !in name && ':' !in key && text == name + [':'] + tail
    ensures HasPrefix(text, key + [':']) == (name == key)
  {
    IndexOfAppend(name, ':', tail);
    if HasPrefix(text, key + [':']) {
      var other := text[|key| + 1..];
      assert text == key + [':'] + other;
      IndexOfAppend(key, ':', other);
      assert name == text[..|name|] == text[..|key|] == key;
    }
  }

  lemma BracedScalar(key: string, value: string, inner: string, rest: string)
    requires key == "condition" && Plain(value) && inner == key + [':'] + ([' '] + value)
    requires rest == ['{'] + inner + ['}']
    ensures CleanScalar(rest) == rest
  {
    BracedField(key, value, inner, rest);
    KeyIsPlain(key);
    NotIn(value, '#');
    NotIn(key, '#');
    TextAbsent(rest, " #", 1);
  }

  lemma OneLineCondition(name: string, key: string, value: string, inner: string, rest: string, text: string)
    requires Plain(name) && key == "condition" && Plain(value) && inner == key + [':'] + ([' '] + value)
    requires rest == ['{'] + inner + ['}'] && text == name + [':'] + ([' '] + rest)
    ensures HasPrefix(text, "condition:") == (name == key)
    ensures name == key ==> CleanScalar(TrimSpace(text[10..])) == rest
  {
    PlainIsTrimmed(name);
    KeyIsPlain(key);
    NotIn(key, ':');
    KeyPrefix(name, key, [' '] + rest, text);
    assert key + [':'] == "condition:";
    if name == key {
      assert text[10..] == [' '] + rest;
      TailShape(text[10..], key, value, inner, rest);
      BracedScalar(key, value, inner, rest);
    }
  }

  lemma OneLineFlags(name: string, rest: string, text: string, build: string)
    requires Plain(name) && rest != "" && rest[|rest| - 1] == '}' && text == name + [':'] + ([' '] + rest)
    requires build == "build"
    ensures RawKey(text) == None && text != "services:" && !HasPrefix(text, "-")
    ensures text != "depends_on:" && text != "depends_on" && text != "build:"
    ensures HasPrefix(text, "build: ") == (name == build)
  {
    PlainIsTrimmed(name);
    assert text[|text| - 1] == '}' && text[0] == name[0];
    assert "services:"[8] == ':' && "depends_on:"[10] == ':' && "depends_on"[9] == 'n' && "build:"[5] == ':';
    assert build == ['b', 'u', 'i', 'l', 'd'];
    KeyPrefix(name, build, [' '] + rest, text);
    assert "build: " == (build + [':']) + [' '];
    if name == build {
      assert text[..7] == (build + [':']) + [' '];
    }
  }

  /** A dependency and its condition on one line read as that row. */
  lemma OneLineLine(n: nat, name: string, value: string)
    requires Plain(name) && Plain(value)
    ensures View(Spaces(n) + OneLineText(name, value)) == Some(OneLineRow(n, name, value))
  {
    var inner := "condition" + [':'] + ([' '] + value);
    var rest := ['{'] + inner + ['}'];
    var text := OneLineText(name, value);
    assert text == name + [':'] + ([' '] + rest);
    assert rest[|rest| - 1] == '}' && text[|text| - 1] == '}' && text[0] == name[0] && PlainChar(name[0]);
    Indented(n, text);
    OneLineFlow(name, "condition", value, inner, rest, text);
    OneLineCondition(name, "condition", value, inner, rest, text);
    OneLineFlags(name, rest, text, "build");
  }

  function OneLineText(name: string, value: string): string {
    name + [':'] + ([' '] + (['{'] + ("condition" + [':'] + ([' '] + value)) + ['}']))
  }

  /** Blank lines and comments make no difference. */
  lemma {:induction false} CommentsAreSkipped(view: string -> Option<Row>, a: seq<string>, line: string, b: seq<string>)
    requires view(line) == None
    ensures Significant(view, a + [line] + b) == Significant(view, a + b)
    decreases |b|
  {
    if b == [] {
      assert (a + [line] + b)[..|a|] == a && a + b == a;
      assert (a + [line] + b)[|a|] == line;
    } else {
      var n := |b| - 1;
      CommentsAreSkipped(view, a, line, b[..n]);
      assert (a + [line] + b)[..|a| + 1 + n] == a + [line] + b[..n];
      assert (a + b)[..|a| + n] == a + b[..n];
    }
  }
}
