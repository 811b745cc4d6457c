/** The hand-written printers: Prometheus label blocks (internal/services/metrics_exposition.go) and JSON
    strings (internal/web/handlers/vpn.go), each against a reader of its format. */
module Printers {
  import opened Text

  // ---------- Label values ----------

  predicate IsControl(c: char) { c < ' ' }

  function EscapeRune(c: char): string {
    if c == '\\' then "\\\\" else if c == '"' then "\\\"" else if c == '\n' then "\\n"
    else if IsControl(c) then "" else [c]
  }

  function Escape(s: string): string { if s == [] then "" else EscapeRune(s[0]) + Escape(s[1..]) }

  lemma EscapeFrom(s: string, i: nat)
    requires i < |s|
    ensures Escape(s[i..]) == EscapeRune(s[i]) + Escape(s[i + 1..])
  {
    assert s[i..][1..] == s[i + 1..];
  }

  method EscapeLabelValue(s: string) returns (out: string)
    ensures out == Escape(s)
  {
    hide Escape;
    EscapeEmpty();
    if s == "" { return ""; }
    out := "";
    assert s[0..] == s;
    assert out + Escape(s) == Escape(s);
    for i := 0 to |s|
      invariant out + Escape(s[i..]) == Escape(s)
    {
      var piece;
      match s[i] {
        case '\\' => piece := "\\\\";
        case '"' => piece := "\\\"";
        case '\n' => piece := "\\n";
        case '\r' => piece := "";
        case '\t' => piece := "";
        case r => piece := if r < ' ' then "" else [r];
      }
      assert piece == EscapeRune(s[i]);
      EscapeFrom(s, i);
      Regroup(out, piece, Escape(s[i + 1..]));
      out := out + piece;
    }
    assert s[|s|..] == [];
    assert out + "" == out;
  }

  lemma EscapeEmpty()
    ensures Escape("") == ""
  {}

  /** What a value loses: every control character but the newline. */
  function Stripped(s: string): string {
    if s == [] then "" else if (s[0] as int) < 0x20 && s[0] != '\n' then Stripped(s[1..]) else [s[0]] + Stripped(s[1..])
  }

  // ---------- Label blocks ----------

  datatype Label = Label(name: string, value: string)

  /** Label names: [a-zA-Z_][a-zA-Z0-9_]*. */
  predicate IsName(s: string) {
    s != [] && !IsDigit(s[0]) && forall i :: 0 <= i < |s| ==> IsDigit(s[i]) || 'a' <= s[i] <= 'z' || 'A' <= s[i] <= 'Z' || s[i] == '_'
  }

  function PrintLabel(l: Label): string { l.name + "=\"" + Escape(l.value) + "\"" }

  /** The label pairs and the closing brace, before `tail`. */
  function PrintLabels(ls: seq<Label>, tail: string): string {
    if ls == [] then "}" + tail
    else if |ls| == 1 then PrintLabel(ls[0]) + ("}" + tail)
    else PrintLabel(ls[0]) + ("," + PrintLabels(ls[1..], tail))
  }

  /** writeMetric's label block; without labels there is none. */
  function PrintBlock(ls: seq<Label>): string { if ls == [] then "" else "{" + PrintLabels(ls, "") }

  /** The labels of a map in the order its sorted keys give. */
  function LabelsOf(keys: seq<string>, labels: map<string, string>): seq<Label>
    requires forall k :: k in keys ==> k in labels
  {
    seq(|keys|, i requires 0 <= i < |keys| => Label(keys[i], labels[keys[i]]))
  }

  method WriteLabels(keys: seq<string>, labels: map<string, string>) returns (out: string)
    requires forall k :: k in keys ==> k in labels
    ensures out == PrintBlock(LabelsOf(keys, labels))
  {
    if |keys| == 0 { return ""; }
    var ls := LabelsOf(keys, labels);
    out := "{";
    assert ls[0..] == ls;
    for i := 0 to |keys|
      invariant PrintBlock(ls) == out + (if i == |keys| then "}" else if i == 0 then PrintLabels(ls, "") else "," + PrintLabels(ls[i..], ""))
    {
      hide Escape;
      ghost var start := out;
      if i > 0 {
        out := out + ",";
        Regroup(start, ",", PrintLabels(ls[i..], ""));
      }
      var value := EscapeLabelValue(labels[keys[i]]);
      var pair := keys[i] + "=\"" + value + "\"";
      assert ls[i..][0] == ls[i] && ls[i..][1..] == ls[i + 1..];
      assert pair == PrintLabel(ls[i]);
      assert i + 1 == |keys| ==> "}" + "" == "}";
      Regroup(out, pair, if i + 1 == |keys| then "}" else "," + PrintLabels(ls[i + 1..], ""));
      out := out + pair;
    }
    out := out + "}";
  }

  // ---------- Whole samples ----------

  /** The order of sort.Strings; comparing UTF-8 bytes and code points comes to the same. */
  predicate Leq(a: string, b: string) {
    a == [] || (b != [] && (a[0] < b[0] || (a[0] == b[0] && Leq(a[1..], b[1..]))))
  }

  /** Lexicographic: `a` is a prefix of `b`, or smaller where they first differ. */
  lemma {:induction false} LeqMeans(a: string, b: string)
    ensures Leq(a, b) <==> exists k :: 0 <= k <= |a| && k <= |b| && a[..k] == b[..k] && (k == |a| || (k < |b| && a[k] < b[k]))
  {
    if a == [] {
      assert a[..0] == b[..0];
    } else if b != [] {
      var x, y := a[1..], b[1..];
      LeqMeans(x, y);
      if a[0] == b[0] && Leq(x, y) {
        var k :| 0 <= k <= |x| && k <= |y| && x[..k] == y[..k] && (k == |x| || (k < |y| && x[k] < y[k]));
        assert a[..k + 1] == [a[0]] + x[..k] && b[..k + 1] == [b[0]] + y[..k];
      }
      if a[0] < b[0] { assert a[..0] == b[..0]; }
      if k :| 0 <= k <= |a| && k <= |b| && a[..k] == b[..k] && (k == |a| || (k < |b| && a[k] < b[k])) {
        if k > 0 {
          assert a[0] == a[..k][0] && b[0] == b[..k][0];
          assert x[..k - 1] == a[..k][1..] && y[..k - 1] == b[..k][1..];
          assert k - 1 == |x| || (k - 1 < |y| && x[k - 1] < y[k - 1]);
        }
      }
    }
  }

  lemma {:induction false} LeqTotal(a: string, b: string)
    ensures Leq(a, b) || Leq(b, a)
  {
    if a != [] && b != [] { LeqTotal(a[1..], b[1..]); }
  }

  lemma {:induction false} LeqTransitive(a: string, b: string, c: string)
    requires Leq(a, b) && Leq(b, c)
    ensures Leq(a, c)
  {
    if a != [] && a[0] == b[0] == c[0] { LeqTransitive(a[1..], b[1..], c[1..]); }
  }

  predicate Sorted(keys: seq<string>) { forall i, j :: 0 <= i < j < |keys| ==> Leq(keys[i], keys[j]) }

  method SortStrings(keys: seq<string>) returns (out: seq<string>)
    ensures Sorted(out) && multiset(out) == multiset(keys)
  {
    out := [];
    for i := 0 to |keys|
      invariant Sorted(out) && multiset(out) == multiset(keys[..i])
    {
      out := Insert(out, keys[i]);
      assert keys[..i + 1] == keys[..i] + [keys[i]];
    }
    assert keys[..|keys|] == keys;
  }

  method Insert(sorted: seq<string>, key: string) returns (out: seq<string>)
    requires Sorted(sorted)
    ensures Sorted(out) && multiset(out) == multiset(sorted) + multiset{key}
  {
    var k := |sorted|;
    while k > 0 && !Leq(sorted[k - 1], key)
      invariant 0 <= k <= |sorted| && forall j :: k <= j < |sorted| ==> Leq(key, sorted[j])
    {
      LeqTotal(sorted[k - 1], key);
      k := k - 1;
    }
    InsertSorted(sorted, k, key);
    assert sorted == sorted[..k] + sorted[k..];
    out := sorted[..k] + [key] + sorted[k..];
  }

  lemma InsertSorted(sorted: seq<string>, k: nat, key: string)
    requires Sorted(sorted) && k <= |sorted| && (k > 0 ==> Leq(sorted[k - 1], key))
    requires forall j :: k <= j < |sorted| ==> Leq(key, sorted[j])
    ensures Sorted(sorted[..k] + [key] + sorted[k..])
  {
    hide Leq;
    var out := sorted[..k] + [key] + sorted[k..];
    forall i | 0 <= i < k ensures Leq(sorted[i], key) {
      if i < k - 1 { LeqTransitive(sorted[i], sorted[k - 1], key); }
    }
    assert forall i :: 0 <= i < |out| ==> out[i] == if i < k then sorted[i] else if i == k then key else sorted[i - 1];
  }

  /** The labels of the map, each once, in the order of their names. */
  ghost predicate Lists(ls: seq<Label>, labels: map<string, string>) {
    exists keys :: Sorted(keys) && multiset(keys) == multiset(labels.Keys) && IsOrder(ls, keys, labels)
  }

  ghost predicate IsOrder(ls: seq<Label>, keys: seq<string>, labels: map<string, string>) {
    (forall k :: k in keys ==> k in labels) && ls == LabelsOf(keys, labels)
  }

  /** One sample line; `value` is the number as %g prints it. */
  function MetricLine(name: string, ls: seq<Label>, value: string): string { name + PrintBlock(ls) + " " + value + "\n" }

  method CollectKeys(labels: map<string, string>) returns (keys: seq<string>)
    ensures multiset(keys) == multiset(labels.Keys)
  {
    keys := [];
    var todo := labels.Keys;
    while todo != {}
      invariant todo <= labels.Keys && multiset(keys) == multiset(labels.Keys - todo)
      decreases |todo|
    {
      var k :| k in todo;
      assert labels.Keys - (todo - {k}) == (labels.Keys - todo) + {k};
      keys, todo := keys + [k], todo - {k};
    }
    assert labels.Keys - {} == labels.Keys;
  }

  /** writeMetric. */
  method WriteMetric(name: string, labels: map<string, string>, value: string) returns (line: string)
    ensures exists ls :: Lists(ls, labels) && line == MetricLine(name, ls, value)
  {
    var unsorted := CollectKeys(labels);
    var keys := SortStrings(unsorted);
    forall k | k in keys ensures k in labels { assert k in multiset(keys); }
    var block := WriteLabels(keys, labels);
    ghost var ls := LabelsOf(keys, labels);
    assert IsOrder(ls, keys, labels);
    assert Lists(ls, labels);
    line := name + block + " " + value + "\n";
    assert line == MetricLine(name, ls, value);
  }

  // ---------- A reader of the exposition format ----------

  datatype Value = Value(text: string, rest: string) | BadValue
  datatype Labels = Labels(labels: seq<Label>, rest: string) | BadLabels

  /** A quoted value after its opening quote; three escapes, and no raw newline. */
  function ReadValue(s: string): (v: Value)
    ensures v.Value? ==> |v.rest| < |s|
  {
    if s == [] || s[0] == '\n' then BadValue
    else if s[0] == '"' then Value("", s[1..])
    else if s[0] == '\\' then
      if |s| < 2 || s[1] !in "\\\"n" then BadValue else
        Prepend(if s[1] == 'n' then '\n' else s[1], ReadValue(s[2..]))
    else Prepend(s[0], ReadValue(s[1..]))
  }

  /** name="value" pairs up to the closing brace. */
  function ReadLabels(s: string): Labels
    decreases |s|
  {
    var eq := IndexOf(s, '=');
    if eq + 1 >= |s| || s[eq + 1] != '"' || !IsName(s[..eq]) then BadLabels else
      var v := ReadValue(s[eq + 2..]);
      if v.BadValue? || v.rest == [] then BadLabels
      else if v.rest[0] == '}' then Labels([Label(s[..eq], v.text)], v.rest[1..])
      else if v.rest[0] != ',' then BadLabels
      else
        var more := ReadLabels(v.rest[1..]);
        if more.BadLabels? then more else Labels([Label(s[..eq], v.text)] + more.labels, more.rest)
  }

  // ---------- Round trip of labels ----------

  lemma ReadsEscapedRune(c: char, rest: string)
    ensures ReadValue(EscapeRune(c) + rest) == if IsControl(c) && c != '\n' then ReadValue(rest) else Prepend(c, ReadValue(rest))
  {
    var e := EscapeRune(c);
    var text := e + rest;
    assert text[|e|..] == rest;
    assert forall i :: 0 <= i < |e| ==> text[i] == e[i];
  }

  lemma {:induction false} ReadsEscaped(s: string, after: string)
    ensures ReadValue(Escape(s) + ("\"" + after)) == Value(Stripped(s), after)
  {
    var quoted := "\"" + after;
    if s == [] {
      assert "" + quoted == quoted && quoted[1..] == after;
    } else {
      hide ReadValue, EscapeRune;
      Regroup(EscapeRune(s[0]), Escape(s[1..]), quoted);
      ReadsEscapedRune(s[0], Escape(s[1..]) + quoted);
      ReadsEscaped(s[1..], after);
    }
  }

  function StrippedLabels(ls: seq<Label>): seq<Label> {
    seq(|ls|, i requires 0 <= i < |ls| => Label(ls[i].name, Stripped(ls[i].value)))
  }

  lemma NameHasNo(n: string, c: char)
    requires IsName(n) && (c == '=' || c == '\n')
    ensures c !in n
  {}

  /** name="value" followed by `after`, split where the reader splits it. */
  lemma PairText(l: Label, after: string)
    requires IsName(l.name)
    ensures var text := PrintLabel(l) + after; var eq := |l.name|;
            && IndexOf(text, '=') == eq && eq + 1 < |text| && text[..eq] == l.name && text[eq + 1] == '"'
            && text[eq + 2..] == Escape(l.value) + ("\"" + after)
  {
    hide Escape, IndexOf;
    var text, rest := PrintLabel(l) + after, "\"" + (Escape(l.value) + ("\"" + after));
    assert text == l.name + ['='] + rest;
    NameHasNo(l.name, '=');
    IndexOfFirst(l.name, '=', rest);
    assert text[|l.name| + 1..] == rest;
    assert rest[1..] == Escape(l.value) + ("\"" + after);
    assert text[|l.name| + 2..] == rest[1..];
  }

  /** Reading one pair: the stripped value, then whatever the separator says. */
  lemma ReadsPair(l: Label, after: string)
    requires IsName(l.name) && after != []
    ensures ReadLabels(PrintLabel(l) + after) ==
            var read := Label(l.name, Stripped(l.value));
            if after[0] == '}' then Labels([read], after[1..])
            else if after[0] != ',' then BadLabels
            else var more := ReadLabels(after[1..]);
                 if more.BadLabels? then more else Labels([read] + more.labels, more.rest)
  {
    hide Escape, IndexOf, ReadValue, PrintLabel, Stripped;
    PairText(l, after);
    ReadsEscaped(l.value, after);
  }

  /** Reading a printed block gives the labels back, less the control characters that are not newlines. */
  lemma {:induction false} LabelsRoundTrip(ls: seq<Label>, tail: string)
    requires |ls| > 0 && forall i :: 0 <= i < |ls| ==> IsName(ls[i].name)
    ensures ReadLabels(PrintLabels(ls, tail)) == Labels(StrippedLabels(ls), tail)
    decreases |ls|
  {
    hide ReadLabels, PrintLabel, Stripped, IsName;
    var l := ls[0];
    if |ls| == 1 {
      ReadsPair(l, "}" + tail);
      assert ("}" + tail)[1..] == tail;
      assert StrippedLabels(ls) == [Label(l.name, Stripped(l.value))];
    } else {
      var more := PrintLabels(ls[1..], tail);
      LabelsRoundTrip(ls[1..], tail);
      ReadsPair(l, "," + more);
      assert ("," + more)[1..] == more;
      assert StrippedLabels(ls) == [Label(l.name, Stripped(l.value))] + StrippedLabels(ls[1..]);
    }
  }

  lemma {:induction false} EscapeOneLine(s: string)
    ensures '\n' !in Escape(s)
  {
    if s != [] { EscapeOneLine(s[1..]); }
  }

  /** The block stays on one physical line. */
  lemma {:induction false} LabelsOneLine(ls: seq<Label>)
    requires forall i :: 0 <= i < |ls| ==> IsName(ls[i].name)
    ensures '\n' !in PrintLabels(ls, "")
    decreases |ls|
  {
    if ls != [] {
      assert IsName(ls[0].name);
      NameHasNo(ls[0].name, '\n');
      EscapeOneLine(ls[0].value);
      LabelsOneLine(ls[1..]);
    }
  }

  lemma {:induction false} TailMoves(ls: seq<Label>, tail: string)
    ensures PrintLabels(ls, tail) == PrintLabels(ls, "") + tail
    decreases |ls|
  {
    hide PrintLabel;
    if ls == [] {
      assert "}" + "" + tail == "}" + tail;
    } else if |ls| == 1 {
      assert PrintLabel(ls[0]) + ("}" + "") + tail == PrintLabel(ls[0]) + ("}" + tail);
    } else {
      TailMoves(ls[1..], tail);
      Regroup(",", PrintLabels(ls[1..], ""), tail);
      Regroup(PrintLabel(ls[0]), "," + PrintLabels(ls[1..], ""), tail);
    }
  }

  // ---------- A reader of whole samples ----------

  datatype Sample = Sample(name: string, labels: seq<Label>, value: string) | BadSample

  predicate InMetricName(c: char) { IsDigit(c) || 'a' <= c <= 'z' || 'A' <= c <= 'Z' || c == '_' || c == ':' }

  /** Metric names: [a-zA-Z_:][a-zA-Z0-9_:]*. */
  predicate IsMetricName(s: string) { s != [] && !IsDigit(s[0]) && forall i :: 0 <= i < |s| ==> InMetricName(s[i]) }

  function NameLength(s: string): (n: nat)
    ensures n <= |s|
  {
    if s == [] || !InMetricName(s[0]) then 0 else 1 + NameLength(s[1..])
  }

  /** The number as printed, a non-empty word. */
  predicate IsNumberText(s: string) { s != [] && ' ' !in s && '\n' !in s }

  /** One line: a name, labels in braces or none, a space, the number and the line break. */
  function ReadSample(line: string): Sample {
    var n := NameLength(line);
    if n == |line| || !IsMetricName(line[..n]) then BadSample
    else if line[n] == '{' then
      var block := ReadLabels(line[n + 1..]);
      if block.BadLabels? then BadSample else ReadNumber(line[..n], block.labels, block.rest)
    else ReadNumber(line[..n], [], line[n..])
  }

  function ReadNumber(name: string, labels: seq<Label>, rest: string): Sample {
    if |rest| < 2 || rest[0] != ' ' || rest[|rest| - 1] != '\n' || !IsNumberText(rest[1..|rest| - 1]) then BadSample
    else Sample(name, labels, rest[1..|rest| - 1])
  }

  lemma {:induction false} NameEnds(name: string, rest: string)
    requires (forall i :: 0 <= i < |name| ==> InMetricName(name[i])) && rest != [] && !InMetricName(rest[0])
    ensures NameLength(name + rest) == |name|
  {
    var line := name + rest;
    if name == [] {
      assert line == rest;
    } else {
      assert line[0] == name[0] && line[1..] == name[1..] + rest;
      NameEnds(name[1..], rest);
    }
  }

  lemma ReadsNumber(name: string, labels: seq<Label>, value: string)
    requires IsNumberText(value)
    ensures ReadNumber(name, labels, " " + value + "\n") == Sample(name, labels, value)
  {
    var rest := " " + value + "\n";
    assert rest[1..|rest| - 1] == value;
  }

  lemma SplitsAt(name: string, rest: string)
    requires IsMetricName(name) && rest != [] && !InMetricName(rest[0])
    ensures ReadSample(name + rest) ==
            if rest[0] == '{' then
              var block := ReadLabels(rest[1..]);
              if block.BadLabels? then BadSample else ReadNumber(name, block.labels, block.rest)
            else ReadNumber(name, [], rest)
  {
    hide ReadLabels, ReadNumber, NameLength;
    NameEnds(name, rest);
    var line := name + rest;
    assert line[..|name|] == name && line[|name|..] == rest && line[|name|] == rest[0] && line[|name| + 1..] == rest[1..];
  }

  lemma OneBreak(line: string, body: string)
    requires line == body + "\n" && '\n' !in body
    ensures '\n' !in line[..|line| - 1] && line[|line| - 1] == '\n'
  {
    assert line[..|line| - 1] == body;
  }

  lemma MetricText(name: string, ls: seq<Label>, value: string)
    ensures MetricLine(name, ls, value) == name + (if ls == [] then " " + value + "\n" else "{" + PrintLabels(ls, " " + value + "\n"))
    ensures MetricLine(name, ls, value) == name + PrintBlock(ls) + " " + value + "\n"
  {
    hide PrintLabels;
    TailMoves(ls, " " + value + "\n");
  }

  /** Reading a printed sample line gives back its name, its labels less the control characters other than
      newline, and its number; the line break that ends the sample is its only one. */
  lemma MetricRoundTrip(name: string, ls: seq<Label>, value: string)
    requires IsMetricName(name) && IsNumberText(value) && forall i :: 0 <= i < |ls| ==> IsName(ls[i].name)
    ensures var line := MetricLine(name, ls, value);
            ReadSample(line) == Sample(name, StrippedLabels(ls), value) && '\n' !in line[..|line| - 1] && line[|line| - 1] == '\n'
  {
    hide ReadLabels, PrintLabels, ReadSample, ReadNumber, IsName;
    var tail := " " + value + "\n";
    MetricText(name, ls, value);
    LabelsOneLine(ls);
    OneBreak(MetricLine(name, ls, value), name + PrintBlock(ls) + " " + value);
    ReadsNumber(name, StrippedLabels(ls), value);
    if ls == [] {
      assert StrippedLabels(ls) == [];
      SplitsAt(name, tail);
    } else {
      LabelsRoundTrip(ls, tail);
      var rest := "{" + PrintLabels(ls, tail);
      assert rest[1..] == PrintLabels(ls, tail);
      SplitsAt(name, rest);
    }
  }

  // ---------- JSON strings ----------

  function HexDigit(d: nat): char
    requires d < 16
  {
    "0123456789abcdef"[d]
  }

  function HexValue(c: char): Option<nat> {
    if '0' <= c <= '9' then Some(c as int - 48)
    else if 'a' <= c <= 'f' then Some(c as int - 87)
    else if 'A' <= c <= 'F' then Some(c as int - 55)
    else None
  }

  function JsonRune(c: char): string {
    if c == '"' then "\\\"" else if c == '\\' then "\\\\" else if c == '\n' then "\\n"
    else if c == '\r' then "\\r" else if c == '\t' then "\\t"
    else if c < ' ' then "\\u00" + [HexDigit(c as int / 16), HexDigit(c as int % 16)]
    else [c]
  }

  function JsonBody(s: string): string { if s == [] then "" else JsonRune(s[0]) + JsonBody(s[1..]) }

  lemma JsonFrom(s: string, i: nat)
    requires i < |s|
    ensures JsonBody(s[i..]) == JsonRune(s[i]) + JsonBody(s[i + 1..])
  {
    assert s[i..][1..] == s[i + 1..];
  }

  method JsonString(s: string) returns (out: string)
    ensures out == "\"" + JsonBody(s) + "\""
  {
    out := "\"";
    assert s[0..] == s;
    for i := 0 to |s|
      invariant out + JsonBody(s[i..]) == "\"" + JsonBody(s)
    {
      hide JsonBody;
      var piece;
      match s[i] {
        case '"' => piece := "\\\"";
        case '\\' => piece := "\\\\";
        case '\n' => piece := "\\n";
        case '\r' => piece := "\\r";
        case '\t' => piece := "\\t";
        case r => piece := if r < ' ' then "\\u00" + [HexDigit(r as int / 16), HexDigit(r as int % 16)] else [r];
      }
      assert piece == JsonRune(s[i]);
      JsonFrom(s, i);
      Regroup(out, piece, JsonBody(s[i + 1..]));
      out := out + piece;
    }
    assert s[|s|..] == [];
    assert out + "" == out;
    out := out + "\"";
  }

  /** The single-character escapes of section 7 of RFC 8259. */
  function Unescaped(c: char): Option<char> {
    if c == '"' || c == '\\' || c == '/' then Some(c)
    else if c == 'b' then Some(8 as char) else if c == 'f' then Some(12 as char)
    else if c == 'n' then Some('\n') else if c == 'r' then Some('\r') else if c == 't' then Some('\t')
    else None
  }

  /** \uXXXX for a code point that is not half of a surrogate pair. */
  function CodePoint(s: string): Option<char>
    requires |s| == 4
  {
    var a, b, c, d := HexValue(s[0]), HexValue(s[1]), HexValue(s[2]), HexValue(s[3]);
    if a.None? || b.None? || c.None? || d.None? then None else
      var n := a.value * 4096 + b.value * 256 + c.value * 16 + d.value;
      if n < 0xD800 || 0xE000 <= n < 0x1_0000 then Some(n as char) else None
  }

  /** A JSON string after its opening quote: what it denotes and what follows the closing quote. */
  function ReadJson(s: string): Value {
    if s == [] || s[0] < ' ' then BadValue
    else if s[0] == '"' then Value("", s[1..])
    else if s[0] != '\\' then Prepend(s[0], ReadJson(s[1..]))
    else if |s| >= 6 && s[1] == 'u' then
      var c := CodePoint(s[2..6]);
      if c.None? then BadValue else Prepend(c.value, ReadJson(s[6..]))
    else if |s| >= 2 && Unescaped(s[1]).Some? then Prepend(Unescaped(s[1]).value, ReadJson(s[2..]))
    else BadValue
  }

  function Prepend(c: char, v: Value): Value { if v.BadValue? then v else Value([c] + v.text, v.rest) }

  lemma ReadsHex(c: char, rest: string)
    requires c < ' '
    ensures ReadJson("\\u00" + [HexDigit(c as int / 16), HexDigit(c as int % 16)] + rest) == Prepend(c, ReadJson(rest))
  {
    var four := ['0', '0', HexDigit(c as int / 16), HexDigit(c as int % 16)];
    var text := "\\u00" + [HexDigit(c as int / 16), HexDigit(c as int % 16)] + rest;
    HexPair(c as int);
    assert CodePoint(four) == Some(c);
    assert text[0] == '\\' && text[1] == 'u' && text[2..6] == four && text[6..] == rest;
  }

  lemma ReadsPlain(c: char, rest: string)
    requires c >= ' ' && c != '"' && c != '\\'
    ensures ReadJson([c] + rest) == Prepend(c, ReadJson(rest))
  {
    assert ([c] + rest)[1..] == rest;
  }

  lemma ReadsEscape(c: char, e: char, rest: string)
    requires Unescaped(e) == Some(c) && JsonRune(c) == ['\\', e]
    ensures ReadJson(JsonRune(c) + rest) == Prepend(c, ReadJson(rest))
  {
    var text := ['\\', e] + rest;
    assert text[0] == '\\' && text[1] == e && text[2..] == rest;
  }

  lemma ReadsRune(c: char, rest: string)
    ensures ReadJson(JsonRune(c) + rest) == Prepend(c, ReadJson(rest))
  {
    hide ReadJson;
    match c
    case '"' => ReadsEscape(c, '"', rest);
    case '\\' => ReadsEscape(c, '\\', rest);
    case '\n' => ReadsEscape(c, 'n', rest);
    case '\r' => ReadsEscape(c, 'r', rest);
    case '\t' => ReadsEscape(c, 't', rest);
    case _ => if c < ' ' { ReadsHex(c, rest); } else { ReadsPlain(c, rest); }
  }

  lemma HexPair(n: nat)
    requires n < 32
    ensures HexValue(HexDigit(n / 16)) == Some(n / 16) && HexValue(HexDigit(n % 16)) == Some(n % 16)
  {}

  /** Every string of code points is printed as a JSON string that denotes it. */
  lemma {:induction false} JsonRoundTrip(s: string, tail: string)
    ensures ReadJson(JsonBody(s) + "\"" + tail) == Value(s, tail)
  {
    var text := JsonBody(s) + "\"" + tail;
    if s == [] {
      assert text == "\"" + tail && text[1..] == tail;
    } else {
      var rest := JsonBody(s[1..]) + "\"" + tail;
      assert text == JsonRune(s[0]) + rest;
      ReadsRune(s[0], rest);
      JsonRoundTrip(s[1..], tail);
    }
  }
}
