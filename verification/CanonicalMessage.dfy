/** Canonical signing messages and their token amounts. */
module CanonicalMessage {
  import opened Wrappers
  import SparseTrees

  type Line = string

  // ---------------------------------------------------------------------- lines

  /** `lines.join("\n")`. */
  function JoinLines(lines: seq<Line>): string {
    if lines == [] then "" else if |lines| == 1 then lines[0] else lines[0] + "\n" + JoinLines(lines[1..])
  }

  /** `text.split("\n")`. */
  function SplitLines(text: string): (lines: seq<Line>)
    ensures lines != []
  {
    if text == "" then [""]
    else
      var rest := SplitLines(text[1..]);
      if text[0] == '\n' then [""] + rest else [[text[0]] + rest[0]] + rest[1..]
  }

  predicate OneLine(s: string) {
    '\n' !in s
  }

  predicate AllOneLine(lines: seq<Line>) {
    forall i :: 0 <= i < |lines| ==> OneLine(lines[i])
  }

  lemma {:induction false} SplitFirst(line: string, rest: string)
    requires OneLine(line)
    ensures SplitLines(line + "\n" + rest) == [line] + SplitLines(rest)
    ensures SplitLines(line) == [line]
  {
    var text := line + "\n" + rest;
    if line == "" {
      assert text[1..] == rest;
    } else {
      SplitFirst(line[1..], rest);
      assert text[1..] == line[1..] + "\n" + rest;
      assert line == [line[0]] + line[1..];
    }
  }

  /** Splitting undoes joining for lines without line breaks. */
  lemma {:induction false} SplitJoin(lines: seq<Line>)
    requires lines != [] && AllOneLine(lines)
    ensures SplitLines(JoinLines(lines)) == lines
  {
    if |lines| == 1 {
      SplitFirst(lines[0], "");
    } else {
      SplitJoin(lines[1..]);
      SplitFirst(lines[0], JoinLines(lines[1..]));
    }
  }

  /** The white space that `trimEnd` removes. */
  predicate IsSpace(ch: char) {
    var c := ch as nat;
    9 <= c <= 13 || c == 32 || c == 160 || c == 5760 || 8192 <= c <= 8202 || c == 8232 || c == 8233 || c == 8239
    || c == 8287 || c == 12288 || c == 65279
  }

  function TrimEnd(s: string): string {
    if s != "" && IsSpace(s[|s| - 1]) then TrimEnd(s[..|s| - 1]) else s
  }

  predicate Trimmed(s: string) {
    s != "" && !IsSpace(s[|s| - 1])
  }

  // ------------------------------------------------------------------- one field

  datatype Field = Field(name: string, value: string)

  predicate SeparatorAt(s: string, i: nat) {
    i + 1 < |s| && s[i] == ':' && s[i + 1] == ' '
  }

  /** `line.indexOf(": ")`. */
  function Separator(s: string): (i: Option<nat>)
    ensures i.Some? ==> SeparatorAt(s, i.value) && forall j: nat :: j < i.value ==> !SeparatorAt(s, j)
    ensures i.None? ==> forall j: nat :: !SeparatorAt(s, j)
  {
    SeparatorFrom(s, 0)
  }

  function SeparatorFrom(s: string, from: nat): (i: Option<nat>)
    requires from <= |s|
    ensures i.Some? ==> from <= i.value && SeparatorAt(s, i.value) && forall j: nat :: from <= j < i.value ==> !SeparatorAt(s, j)
    ensures i.None? ==> forall j: nat :: from <= j ==> !SeparatorAt(s, j)
    decreases |s| - from
  {
    if from == |s| then None else if SeparatorAt(s, from) then Some(from) else SeparatorFrom(s, from + 1)
  }

  function FieldLine(f: Field): Line {
    f.name + ": " + f.value
  }

  /** A line read back as a field; a missing or leading separator is malformed. */
  function ReadField(line: Line): Option<Field> {
    match Separator(line)
    case None => None
    case Some(i) => if i == 0 then None else Some(Field(line[..i], line[i + 2..]))
  }

  ghost predicate NameOk(name: string) {
    name != "" && OneLine(name) && forall j: nat :: !SeparatorAt(name, j)
  }

  predicate ValueOk(value: string) {
    OneLine(value) && Trimmed(value)
  }

  lemma FieldRoundTrip(f: Field)
    requires NameOk(f.name) && ValueOk(f.value)
    ensures TrimEnd(FieldLine(f)) == FieldLine(f) && OneLine(FieldLine(f)) && ReadField(FieldLine(f)) == Some(f)
  {
    var line, n := FieldLine(f), |f.name|;
    assert line[|line| - 1] == f.value[|f.value| - 1];
    assert line[n] == ':' && line[n + 1] == ' ' && SeparatorAt(line, n);
    forall j: nat | j < n ensures !SeparatorAt(line, j) {
      assert line[j] == f.name[j] && !SeparatorAt(f.name, j);
      assert j + 1 < n ==> line[j + 1] == f.name[j + 1];
    }
    assert Separator(line).Some? && Separator(line).value == n;
    assert line[..n] == f.name && line[n + 2..] == f.value;
  }

  // --------------------------------------------------------------------- messages

  /** The domain line is fixed text; any trimmed single line will do. */
  const DOMAIN := "Domain"

  function FieldLines(fields: seq<Field>): (lines: seq<Line>)
    ensures |lines| == |fields| && forall i :: 0 <= i < |fields| ==> lines[i] == FieldLine(fields[i])
  {
    if fields == [] then [] else FieldLines(fields[..|fields| - 1]) + [FieldLine(fields[|fields| - 1])]
  }

  /** `buildMessage`. */
  function BuildMessage(action: string, fields: seq<Field>, domain: string): string {
    JoinLines(["TSN " + action, "---"] + FieldLines(fields + [Field(DOMAIN, domain)]))
  }

  /** The field lines, first to last, into a map; a malformed or repeated line is refused. */
  function Collect(lines: seq<Line>, fields: map<string, string>): Option<map<string, string>>
    decreases |lines|
  {
    if lines == [] then Some(fields)
    else
      match ReadField(TrimEnd(lines[0]))
      case None => None
      case Some(f) => if f.name in fields then None else Collect(lines[1..], fields[f.name := f.value])
  }

  function Parsed(message: string, action: string, domain: string): Option<map<string, string>> {
    if !("TSN " <= message) then None
    else
      var lines := SplitLines(message);
      if TrimEnd(lines[0]) != "TSN " + action || |lines| < 2 || TrimEnd(lines[1]) != "---" then None
      else
        match Collect(lines[2..], map[])
        case None => None
        case Some(fields) => if DOMAIN in fields && fields[DOMAIN] == domain then Some(fields) else None
  }

  /** `parseMessage`. */
  method ParseMessage(message: string, action: string, domain: string) returns (r: Option<map<string, string>>)
    ensures r == Parsed(message, action, domain)
  {
    hide ReadField, TrimEnd, SplitLines;
    if !("TSN " <= message) {
      return None;
    }
    var lines := SplitLines(message);
    if TrimEnd(lines[0]) != "TSN " + action {
      return None;
    }
    if |lines| < 2 || TrimEnd(lines[1]) != "---" {
      return None;
    }
    var fields: map<string, string> := map[];
    for i := 2 to |lines|
      invariant Collect(lines[i..], fields) == Collect(lines[2..], map[])
    {
      assert lines[i..][1..] == lines[i + 1..];
      var field := ReadField(TrimEnd(lines[i]));
      if field.None? || field.value.name in fields {
        return None;
      }
      fields := fields[field.value.name := field.value.value];
    }
    if DOMAIN !in fields || fields[DOMAIN] != domain {
      return None;
    }
    r := Some(fields);
  }

  function AsMap(fields: seq<Field>): (m: map<string, string>)
    ensures forall n :: n in m <==> exists i :: 0 <= i < |fields| && fields[i].name == n
  {
    if fields == [] then map[]
    else
      var front, last := fields[..|fields| - 1], fields[|fields| - 1];
      assert forall n :: n in AsMap(front) <==> exists i :: 0 <= i < |front| && front[i].name == n;
      assert forall i :: 0 <= i < |front| ==> fields[i] == front[i];
      AsMap(front)[last.name := last.value]
  }

  ghost predicate FieldsOk(fields: seq<Field>) {
    && (forall i :: 0 <= i < |fields| ==> NameOk(fields[i].name) && ValueOk(fields[i].value))
    && (forall i, j :: 0 <= i < j < |fields| ==> fields[i].name != fields[j].name)
  }

  lemma NameIsNew(fields: seq<Field>, k: nat)
    requires FieldsOk(fields) && k < |fields|
    ensures fields[k].name !in AsMap(fields[..k])
  {
    hide NameOk, ValueOk;
    assert forall i :: 0 <= i < k ==> fields[..k][i] == fields[i];
  }

  /** One well-formed line is collected as its field. */
  lemma CollectStep(lines: seq<Line>, f: Field, seen: map<string, string>)
    requires lines != [] && lines[0] == FieldLine(f) && NameOk(f.name) && ValueOk(f.value) && f.name !in seen
    ensures Collect(lines, seen) == Collect(lines[1..], seen[f.name := f.value])
  {
    hide ReadField, TrimEnd, NameOk, ValueOk, FieldLine;
    FieldRoundTrip(f);
  }

  lemma AsMapStep(fields: seq<Field>, k: nat)
    requires k < |fields|
    ensures AsMap(fields[..k + 1]) == AsMap(fields[..k])[fields[k].name := fields[k].value]
  {
    assert fields[..k + 1][..k] == fields[..k];
  }

  lemma {:induction false} CollectFields(fields: seq<Field>, k: nat)
    requires FieldsOk(fields) && k <= |fields|
    ensures Collect(FieldLines(fields)[k..], AsMap(fields[..k])) == Some(AsMap(fields))
    decreases |fields| - k
  {
    hide NameOk, ValueOk, FieldLine, AsMap, FieldLines;
    if k == |fields| {
      assert fields[..k] == fields;
    } else {
      hide Collect;
      CollectFields(fields, k + 1);
      AsMapStep(fields, k);
      NameIsNew(fields, k);
      CollectStep(FieldLines(fields)[k..], fields[k], AsMap(fields[..k]));
      assert FieldLines(fields)[k..][1..] == FieldLines(fields)[k + 1..];
    }
  }

  lemma {:induction false} FieldsAreOneLine(all: seq<Field>)
    requires forall i :: 0 <= i < |all| ==> NameOk(all[i].name) && ValueOk(all[i].value)
    ensures AllOneLine(FieldLines(all))
  {
    hide NameOk, ValueOk, FieldLine, FieldLines, OneLine, ReadField, TrimEnd;
    forall i | 0 <= i < |all| ensures OneLine(FieldLine(all[i])) {
      FieldRoundTrip(all[i]);
    }
  }

  lemma TwoMore(first: Line, second: Line, rest: seq<Line>)
    requires OneLine(first) && OneLine(second) && AllOneLine(rest)
    ensures AllOneLine([first, second] + rest)
  {
    hide OneLine;
  }

  /** The lines of a message whose action and fields are all well formed. */
  lemma {:induction false} BuiltLines(action: string, all: seq<Field>)
    requires OneLine(action) && (forall i :: 0 <= i < |all| ==> NameOk(all[i].name) && ValueOk(all[i].value))
    ensures SplitLines(JoinLines(["TSN " + action, "---"] + FieldLines(all))) == ["TSN " + action, "---"] + FieldLines(all)
  {
    hide NameOk, ValueOk, SplitLines, FieldLines, JoinLines, OneLine, AllOneLine;
    OneLineHead(action);
    FieldsAreOneLine(all);
    TwoMore("TSN " + action, "---", FieldLines(all));
    SplitJoin(["TSN " + action, "---"] + FieldLines(all));
  }

  lemma OneLineHead(action: string)
    ensures OneLine("---") && (OneLine("TSN " + action) <==> OneLine(action))
  {
    var s := "TSN " + action;
    assert forall i :: 0 <= i < |action| ==> action[i] == s[i + 4];
  }

  lemma {:induction false} BuiltPrefix(action: string, rest: seq<Line>)
    ensures "TSN " <= JoinLines(["TSN " + action, "---"] + rest)
  {
    var lines := ["TSN " + action, "---"] + rest;
    assert JoinLines(lines) == ("TSN " + action) + "\n" + JoinLines(lines[1..]);
    assert JoinLines(lines)[..4] == "TSN ";
  }

  /** Every field that was collected is well formed. */
  ghost predicate EntriesOk(m: map<string, string>) {
    forall n :: n in m ==> NameOk(n) && ValueOk(m[n])
  }

  lemma {:induction false} TrimEndShape(s: string)
    ensures TrimEnd(s) <= s && (TrimEnd(s) == "" || Trimmed(TrimEnd(s)))
    ensures OneLine(s) ==> OneLine(TrimEnd(s))
  {
    if s != "" && IsSpace(s[|s| - 1]) {
      TrimEndShape(s[..|s| - 1]);
    }
  }

  lemma ReadFieldOk(line: Line)
    requires OneLine(line) && (line == "" || Trimmed(line)) && ReadField(line).Some?
    ensures NameOk(ReadField(line).value.name) && ValueOk(ReadField(line).value.value)
  {
    var i, f := Separator(line).value, ReadField(line).value;
    assert SeparatorAt(line, i) && f.name == line[..i] && f.value == line[i + 2..];
    forall j: nat ensures !SeparatorAt(f.name, j) {
      assert j + 1 < i ==> !SeparatorAt(line, j) && f.name[j] == line[j] && f.name[j + 1] == line[j + 1];
    }
    assert IsSpace(' ') && line[i + 1] == ' ';
    assert f.value != "" ==> f.value[|f.value| - 1] == line[|line| - 1];
  }

  lemma {:induction false} CollectedOk(lines: seq<Line>, seen: map<string, string>)
    requires EntriesOk(seen) && AllOneLine(lines) && Collect(lines, seen).Some?
    ensures EntriesOk(Collect(lines, seen).value)
    decreases |lines|
  {
    hide ReadField, TrimEnd, NameOk, ValueOk;
    if lines != [] {
      TrimEndShape(lines[0]);
      ReadFieldOk(TrimEnd(lines[0]));
      var f := ReadField(TrimEnd(lines[0])).value;
      CollectedOk(lines[1..], seen[f.name := f.value]);
    }
  }

  lemma {:induction false} SplitIsOneLine(text: string)
    ensures AllOneLine(SplitLines(text))
  {
    if text != "" {
      SplitIsOneLine(text[1..]);
    }
  }

  /** Collecting well-formed lines succeeds only when no name is new twice. */
  lemma {:induction false} CollectDistinct(fields: seq<Field>, k: nat, seen: map<string, string>)
    requires forall i :: 0 <= i < |fields| ==> NameOk(fields[i].name) && ValueOk(fields[i].value)
    requires k <= |fields| && Collect(FieldLines(fields)[k..], seen).Some?
    ensures forall i :: k <= i < |fields| ==> fields[i].name !in seen
    ensures forall i, j :: k <= i < j < |fields| ==> fields[i].name != fields[j].name
    decreases |fields| - k
  {
    hide NameOk, ValueOk, FieldLine, FieldLines, Collect;
    if k < |fields| {
      var lines, f := FieldLines(fields)[k..], fields[k];
      assert lines[0] == FieldLine(f) && lines[1..] == FieldLines(fields)[k + 1..];
      CollectNew(lines, f, seen);
      CollectStep(lines, f, seen);
      CollectDistinct(fields, k + 1, seen[f.name := f.value]);
    }
  }

  lemma {:induction false} CollectNew(lines: seq<Line>, f: Field, seen: map<string, string>)
    requires lines != [] && lines[0] == FieldLine(f) && NameOk(f.name) && ValueOk(f.value) && Collect(lines, seen).Some?
    ensures f.name !in seen
  {
    hide ReadField, TrimEnd, NameOk, ValueOk, FieldLine;
    FieldRoundTrip(f);
  }

  /** A map that holds exactly the given fields. */
  ghost predicate Holds(m: map<string, string>, fields: seq<Field>) {
    && (forall n :: n in m ==> exists i :: 0 <= i < |fields| && fields[i].name == n)
    && (forall i :: 0 <= i < |fields| ==> fields[i].name in m && m[fields[i].name] == fields[i].value)
  }

  lemma HoldsStep(m: map<string, string>, front: seq<Field>, last: Field)
    requires Holds(m, front) && forall i :: 0 <= i < |front| ==> front[i].name != last.name
    ensures Holds(m[last.name := last.value], front + [last])
  {
    var fields := front + [last];
    assert fields[|front|] == last && forall i :: 0 <= i < |front| ==> fields[i] == front[i];
  }

  lemma {:induction false} AsMapHolds(fields: seq<Field>)
    requires FieldsOk(fields)
    ensures Holds(AsMap(fields), fields)
  {
    hide NameOk, ValueOk, Holds;
    if fields == [] {
      HoldsNothing();
    } else {
      var front, last := fields[..|fields| - 1], fields[|fields| - 1];
      AsMapHolds(front);
      HoldsStep(AsMap(front), front, last);
      assert fields == front + [last];
    }
  }

  lemma HoldsNothing()
    ensures Holds(map[], [])
  {
  }

  /** The round trip succeeds for well-formed messages. */
  lemma {:induction false} BuiltIsParsed(action: string, fields: seq<Field>, domain: string)
    requires FieldsOk(fields + [Field(DOMAIN, domain)])
    requires OneLine(action) && Trimmed("TSN " + action)
    ensures Parsed(BuildMessage(action, fields, domain), action, domain) == Some(AsMap(fields + [Field(DOMAIN, domain)]))
  {
    hide ReadField, NameOk, ValueOk, FieldLine, SplitLines, Collect, FieldLines;
    var all := fields + [Field(DOMAIN, domain)];
    var lines := ["TSN " + action, "---"] + FieldLines(all);
    BuiltLines(action, all);
    BuiltPrefix(action, FieldLines(all));
    assert lines[2..] == FieldLines(all)[0..];
    CollectFields(all, 0);
    assert all[..0] == [] && all[..|all| - 1] == fields;
    assert !IsSpace('-') && TrimEnd("---") == "---";
  }

  /** What an accepted built message tells about its parts. */
  lemma ParsedIsWellFormed(action: string, fields: seq<Field>, domain: string)
    requires Parsed(BuildMessage(action, fields, domain), action, domain).Some?
    requires Holds(Parsed(BuildMessage(action, fields, domain), action, domain).value, fields + [Field(DOMAIN, domain)])
    ensures FieldsOk(fields + [Field(DOMAIN, domain)]) && OneLine(action) && Trimmed("TSN " + action)
  {
    hide ReadField, NameOk, ValueOk, FieldLine, SplitLines, Collect, FieldLines, TrimEnd, BuildMessage, OneLine, Trimmed;
    var all, message := fields + [Field(DOMAIN, domain)], BuildMessage(action, fields, domain);
    var lines := SplitLines(message);
    SplitIsOneLine(message);
    CollectedOk(lines[2..], map[]);
    TrimEndShape(lines[0]);
    OneLineHead(action);
    assert forall i :: 0 <= i < |all| ==> NameOk(all[i].name) && ValueOk(all[i].value);
    BuiltLines(action, all);
    Unfold(action, fields, domain);
    assert lines[2..] == FieldLines(all)[0..];
    CollectDistinct(all, 0, map[]);
  }

  lemma {:induction false} Unfold(action: string, fields: seq<Field>, domain: string)
    ensures BuildMessage(action, fields, domain)
         == JoinLines(["TSN " + action, "---"] + FieldLines(fields + [Field(DOMAIN, domain)]))
  {
  }

  /** Parsing a built message gives back every field and the domain, and nothing else, exactly when the
      names are distinct, non-empty single lines without ": ", the values are non-empty single lines
      that do not end in white space, and the same goes for the first line. */
  lemma BuildParseRoundTripIff(action: string, fields: seq<Field>, domain: string)
    ensures
      var r := Parsed(BuildMessage(action, fields, domain), action, domain);
      var all := fields + [Field(DOMAIN, domain)];
      r.Some? && Holds(r.value, all) <==> FieldsOk(all) && OneLine(action) && Trimmed("TSN " + action)
  {
    hide Parsed, BuildMessage, FieldsOk, Holds, OneLine, Trimmed;
    var r := Parsed(BuildMessage(action, fields, domain), action, domain);
    var all := fields + [Field(DOMAIN, domain)];
    if r.Some? && Holds(r.value, all) {
      ParsedIsWellFormed(action, fields, domain);
    } else if FieldsOk(all) && OneLine(action) && Trimmed("TSN " + action) {
      BuiltIsParsed(action, fields, domain);
      AsMapHolds(all);
    }
  }

  lemma {:induction false} JoinSplitLine(before: seq<Line>, a: Line, b: Line, after: seq<Line>)
    ensures JoinLines(before + [a + "\n" + b] + after) == JoinLines(before + [a, b] + after)
  {
    var one, two := before + [a + "\n" + b] + after, before + [a, b] + after;
    if before == [] {
      assert one[1..] == after && two[1..] == [b] + after && ([b] + after)[1..] == after;
      if after != [] {
        assert JoinLines(two) == a + "\n" + (b + "\n" + JoinLines(after));
        assert JoinLines(one) == (a + "\n" + b) + "\n" + JoinLines(after);
      }
    } else {
      JoinSplitLine(before[1..], a, b, after);
      assert one[1..] == before[1..] + [a + "\n" + b] + after && two[1..] == before[1..] + [a, b] + after;
    }
  }

  /** One field whose value goes on with a line break and the line of another field. */
  function Merged(f: Field, g: Field): Field {
    Field(f.name, f.value + "\n" + FieldLine(g))
  }

  lemma MergedLine(f: Field, g: Field)
    ensures FieldLine(Merged(f, g)) == FieldLine(f) + "\n" + FieldLine(g)
  {
  }

  lemma {:induction false} FieldLinesAppend(x: seq<Field>, y: seq<Field>)
    ensures FieldLines(x + y) == FieldLines(x) + FieldLines(y)
  {
    hide FieldLine;
  }

  lemma OneFieldLine(f: Field)
    ensures FieldLines([f]) == [FieldLine(f)]
  {
    hide FieldLine;
  }

  lemma {:induction false} FieldLinesAround(before: seq<Field>, middle: seq<Field>, after: seq<Field>)
    ensures FieldLines(before + middle + after) == FieldLines(before) + FieldLines(middle) + FieldLines(after)
  {
    hide FieldLines;
    FieldLinesAppend(before + middle, after);
    FieldLinesAppend(before, middle);
  }

  /** A two-line value prints the same message as two fields. */
  lemma TwoLineValueBuilds(action: string, before: seq<Field>, f: Field, g: Field, after: seq<Field>, domain: string)
    ensures BuildMessage(action, before + [Merged(f, g)] + after, domain)
         == BuildMessage(action, before + [f, g] + after, domain)
  {
    hide FieldLine, FieldLines, JoinLines, BuildMessage;
    var last := after + [Field(DOMAIN, domain)];
    var one, two := before + [Merged(f, g)] + after, before + [f, g] + after;
    Unfold(action, one, domain);
    Unfold(action, two, domain);
    assert one + [Field(DOMAIN, domain)] == before + [Merged(f, g)] + last;
    assert two + [Field(DOMAIN, domain)] == before + [f, g] + last;
    FieldLinesAround(before, [Merged(f, g)], last);
    FieldLinesAround(before, [f, g], last);
    MergedLine(f, g);
    OneFieldLine(Merged(f, g));
    TwoFieldLines(f, g);
    var head := ["TSN " + action, "---"];
    var line := FieldLine(f) + "\n" + FieldLine(g);
    JoinSplitLine(head + FieldLines(before), FieldLine(f), FieldLine(g), FieldLines(last));
    assert head + (FieldLines(before) + [line] + FieldLines(last)) == (head + FieldLines(before)) + [line] + FieldLines(last);
    assert head + (FieldLines(before) + [FieldLine(f), FieldLine(g)] + FieldLines(last))
        == (head + FieldLines(before)) + [FieldLine(f), FieldLine(g)] + FieldLines(last);
  }

  lemma TwoFieldLines(f: Field, g: Field)
    ensures FieldLines([f, g]) == [FieldLine(f), FieldLine(g)]
  {
    hide FieldLine;
  }

  /** So the parser accepts a message with such a value and returns both fields, of which one was never passed. */
  lemma {:induction false} TwoLineValueParses(action: string, before: seq<Field>, f: Field, g: Field, after: seq<Field>, domain: string)
    requires FieldsOk(before + [f, g] + after + [Field(DOMAIN, domain)]) && OneLine(action) && Trimmed("TSN " + action)
    ensures Parsed(BuildMessage(action, before + [Merged(f, g)] + after, domain), action, domain)
         == Some(AsMap(before + [f, g] + after + [Field(DOMAIN, domain)]))
    ensures !Holds(AsMap(before + [f, g] + after + [Field(DOMAIN, domain)]),
                   before + [Merged(f, g)] + after + [Field(DOMAIN, domain)])
  {
    hide BuildMessage, Parsed, FieldsOk, Holds, AsMap, OneLine, Trimmed;
    TwoLineValueBuilds(action, before, f, g, after, domain);
    BuiltIsParsed(action, before + [f, g] + after, domain);
    MergedNotOk(before, f, g, after + [Field(DOMAIN, domain)]);
    assert before + [Merged(f, g)] + after + [Field(DOMAIN, domain)] == before + [Merged(f, g)] + (after + [Field(DOMAIN, domain)]);
    BuildParseRoundTripIff(action, before + [Merged(f, g)] + after, domain);
  }

  lemma MergedNotOk(before: seq<Field>, f: Field, g: Field, after: seq<Field>)
    ensures !FieldsOk(before + [Merged(f, g)] + after)
  {
    hide NameOk, Trimmed, FieldLine;
    var all, k := before + [Merged(f, g)] + after, |before|;
    assert all[k] == Merged(f, g) && all[k].value[|f.value|] == '\n';
  }

  /** The fields of `buildTinCreationMessage`. */
  function TinCreationFields(tin: string, displayName: string, privacy: string, nonce: string, expires: string): seq<Field> {
    [Field("TIN", tin), Field("Display Name", displayName), Field("Privacy", privacy), Field("Nonce", nonce),
     Field("Expires", expires)]
  }

  /** `TSN_CANONICAL_DOMAIN_DISPLAY`: the last eight hex digits of a fixed digest. */
  const DOMAIN_DISPLAY := "...d772e0a4"

  /** A TIN creation message with a display name of two lines, whatever its other values: the map that the
      parser returns holds the field B, which was never passed. */
  lemma TwoLineDisplayName(tin: string, privacy: string, nonce: string, expires: string)
    requires ValueOk(tin) && ValueOk(privacy) && ValueOk(nonce) && ValueOk(expires)
    ensures Parsed(BuildMessage("TIN Creation", TinCreationFields(tin, "A\nB: c", privacy, nonce, expires), DOMAIN_DISPLAY),
                   "TIN Creation", DOMAIN_DISPLAY)
         == Some(AsMap([Field("TIN", tin), Field("Display Name", "A"), Field("B", "c"), Field("Privacy", privacy),
                        Field("Nonce", nonce), Field("Expires", expires), Field(DOMAIN, DOMAIN_DISPLAY)]))
  {
    hide BuildMessage, Parsed, NameOk, ValueOk, FieldsOk, Merged, AsMap, OneLine, Trimmed;
    var f, g, d := Field("Display Name", "A"), Field("B", "c"), Field(DOMAIN, DOMAIN_DISPLAY);
    var before := [Field("TIN", tin)];
    var after := [Field("Privacy", privacy), Field("Nonce", nonce), Field("Expires", expires)];
    NamesOk();
    MergedName();
    assert before + [f, g] + after + [d] == [before[0], f, g, after[0], after[1], after[2], d];
    SevenFields(before[0], f, g, after[0], after[1], after[2], d);
    assert before + [Merged(f, g)] + after == TinCreationFields(tin, "A\nB: c", privacy, nonce, expires);
    TwoLineValueParses("TIN Creation", before, f, g, after, DOMAIN_DISPLAY);
  }

  lemma MergedName()
    ensures Merged(Field("Display Name", "A"), Field("B", "c")) == Field("Display Name", "A\nB: c")
  {
    assert "A" + "\n" + ("B" + ": " + "c") == "A\nB: c";
  }

  ghost predicate FieldOk(f: Field) {
    NameOk(f.name) && ValueOk(f.value)
  }

  lemma SevenFields(a: Field, b: Field, c: Field, d: Field, e: Field, f: Field, g: Field)
    requires FieldOk(a) && FieldOk(b) && FieldOk(c) && FieldOk(d) && FieldOk(e) && FieldOk(f) && FieldOk(g)
    requires |{a.name, b.name, c.name, d.name, e.name, f.name, g.name}| == 7
    ensures FieldsOk([a, b, c, d, e, f, g])
  {
    hide NameOk, ValueOk;
  }

  lemma NamesOk()
    ensures NameOk("Display Name") && NameOk("B") && NameOk(DOMAIN) && NameOk("TIN") && NameOk("Privacy") && NameOk("Nonce")
    ensures NameOk("Expires") && ValueOk("A") && ValueOk("c") && ValueOk(DOMAIN_DISPLAY)
    ensures OneLine("TIN Creation") && Trimmed("TSN " + "TIN Creation")
  {
    assert "TSN " + "TIN Creation" == "TSN TIN Creation";
  }

  // -------------------------------------------------------------------- the text

  /** The printed text of a message with one field. */
  lemma MessageText(action: string, f: Field, domain: string)
    ensures BuildMessage(action, [f], domain)
         == ("TSN " + action) + "\n" + ("---" + "\n" + ((f.name + ": " + f.value) + "\n" + ("Domain" + ": " + domain)))
  {
    hide JoinLines, FieldLines, BuildMessage;
    var d := Field(DOMAIN, domain);
    Unfold(action, [f], domain);
    assert [f] + [d] == [f, d];
    TwoFieldLines(f, d);
    assert ["TSN " + action, "---"] + [FieldLine(f), FieldLine(d)] == ["TSN " + action, "---", FieldLine(f), FieldLine(d)];
    FourLines("TSN " + action, "---", FieldLine(f), FieldLine(d));
  }

  lemma FourLines(a: Line, b: Line, c: Line, d: Line)
    ensures JoinLines([a, b, c, d]) == a + "\n" + (b + "\n" + (c + "\n" + d))
  {
    OneMoreLine(a, [b, c, d]);
    OneMoreLine(b, [c, d]);
    OneMoreLine(c, [d]);
    OneLineJoined(d);
    hide JoinLines;
    assert [a] + [b, c, d] == [a, b, c, d] && [b] + [c, d] == [b, c, d] && [c] + [d] == [c, d];
  }

  lemma {:induction false} OneMoreLine(line: Line, rest: seq<Line>)
    requires rest != []
    ensures JoinLines([line] + rest) == line + "\n" + JoinLines(rest)
  {
    assert ([line] + rest)[1..] == rest;
  }

  lemma OneLineJoined(line: Line)
    ensures JoinLines([line]) == line
  {
  }

  /** Line feeds turned into carriage return and line feed. */
  function Crlf(text: string): string {
    if text == "" then "" else if text[0] == '\n' then "\r\n" + Crlf(text[1..]) else [text[0]] + Crlf(text[1..])
  }

  /** Each line but the last has one more carriage return. */
  predicate Returned(a: seq<Line>, b: seq<Line>) {
    |a| == |b| && forall i :: 0 <= i < |a| ==> b[i] == if i < |a| - 1 then a[i] + "\r" else a[i]
  }

  lemma ReturnedNext(a: seq<Line>, b: seq<Line>)
    requires Returned(a, b) && a != []
    ensures Returned([""] + a, ["\r"] + b)
  {
    assert "" + "\r" == "\r";
  }

  lemma ReturnedLonger(a: seq<Line>, b: seq<Line>, ch: char)
    requires Returned(a, b) && a != []
    ensures Returned([[ch] + a[0]] + a[1..], [[ch] + b[0]] + b[1..])
  {
    assert [ch] + (a[0] + "\r") == ([ch] + a[0]) + "\r";
  }

  lemma {:induction false} CrlfLines(text: string)
    ensures Returned(SplitLines(text), SplitLines(Crlf(text)))
  {
    hide Returned;
    if text == "" {
      ReturnedSame([""]);
    } else {
      CrlfLines(text[1..]);
      var before, after := SplitLines(text[1..]), SplitLines(Crlf(text[1..]));
      if text[0] == '\n' {
        SplitReturn(Crlf(text[1..]));
        ReturnedNext(before, after);
      } else {
        SplitOther(text[0], Crlf(text[1..]));
        ReturnedLonger(before, after, text[0]);
      }
    }
  }

  lemma ReturnedSame(a: seq<Line>)
    requires |a| == 1
    ensures Returned(a, a)
  {
  }

  lemma {:induction false} SplitReturn(rest: string)
    ensures SplitLines("\r\n" + rest) == ["\r"] + SplitLines(rest)
  {
    SplitFirst("\r", rest);
    assert "\r" + "\n" + rest == "\r\n" + rest;
  }

  lemma {:induction false} SplitOther(ch: char, rest: string)
    requires ch != '\n'
    ensures SplitLines([ch] + rest) == [[ch] + SplitLines(rest)[0]] + SplitLines(rest)[1..]
  {
    assert ([ch] + rest)[1..] == rest;
  }

  lemma {:induction false} TrimReturn(line: string)
    ensures TrimEnd(line + "\r") == TrimEnd(line)
  {
    var s := line + "\r";
    assert s[..|s| - 1] == line && IsSpace('\r');
  }

  /** Collecting looks at trimmed lines only. */
  lemma {:induction false} CollectTrimmed(a: seq<Line>, b: seq<Line>, fields: map<string, string>)
    requires |a| == |b| && forall i :: 0 <= i < |a| ==> TrimEnd(a[i]) == TrimEnd(b[i])
    ensures Collect(a, fields) == Collect(b, fields)
    decreases |a|
  {
    hide TrimEnd, ReadField;
    if a != [] {
      var f := ReadField(TrimEnd(a[0]));
      if f.Some? {
        CollectTrimmed(a[1..], b[1..], fields[f.value.name := f.value.value]);
      }
    }
  }

  lemma {:induction false} CrlfPrefix(text: string, prefix: string)
    requires '\n' !in prefix && '\r' !in prefix
    ensures prefix <= Crlf(text) <==> prefix <= text
  {
    if prefix != "" && text != "" {
      var rest, more := text[1..], prefix[1..];
      CrlfPrefix(rest, more);
      StartsWith(prefix, text);
      StartsWith(prefix, Crlf(text));
      if text[0] != '\n' {
        assert Crlf(text)[1..] == Crlf(rest);
      }
    }
  }

  lemma StartsWith(prefix: string, text: string)
    requires prefix != ""
    ensures prefix <= text <==> text != "" && text[0] == prefix[0] && prefix[1..] <= text[1..]
  {
    if text != "" && text[0] == prefix[0] && prefix[1..] <= text[1..] {
      assert forall i :: 0 < i < |prefix| ==> prefix[i] == prefix[1..][i - 1] && text[i] == text[1..][i - 1];
    }
    if prefix <= text {
      assert forall i :: 0 <= i < |prefix| - 1 ==> prefix[1..][i] == prefix[i + 1] && text[1..][i] == text[i + 1];
    }
  }

  /** A message reads the same with either line ending. */
  lemma {:induction false} CrlfReadsTheSame(message: string, action: string, domain: string)
    ensures Parsed(Crlf(message), action, domain) == Parsed(message, action, domain)
  {
    CrlfPrefix(message, "TSN ");
    CrlfLines(message);
    var a, b := SplitLines(Crlf(message)), SplitLines(message);
    forall i | 0 <= i < |a| ensures TrimEnd(a[i]) == TrimEnd(b[i]) {
      TrimReturn(b[i]);
    }
    hide TrimEnd, SplitLines, Crlf, Collect;
    if |a| >= 2 {
      CollectTrimmed(a[2..], b[2..], map[]);
    }
  }

  // --------------------------------------------------------------- token amounts

  function Pow10(n: nat): (p: nat)
    ensures p >= 1
  {
    if n == 0 then 1 else 10 * Pow10(n - 1)
  }

  predicate IsDigit(ch: char) {
    '0' <= ch <= '9'
  }

  predicate AllDigits(s: string) {
    forall i :: 0 <= i < |s| ==> IsDigit(s[i])
  }

  function DigitChar(d: nat): (ch: char)
    requires d < 10
    ensures IsDigit(ch) && ch as nat == 48 + d
  {
    (48 + d) as char
  }

  /** `BigInt(s)` on digits. */
  function Num(s: string): nat
    requires AllDigits(s)
  {
    if s == "" then 0 else 10 * Num(s[..|s| - 1]) + (s[|s| - 1] as nat - 48)
  }

  /** `n.toString()`. */
  function Dec(n: nat): (s: string)
    ensures s != "" && AllDigits(s)
  {
    if n < 10 then [DigitChar(n)] else Dec(n / 10) + [DigitChar(n % 10)]
  }

  function Zeros(n: nat): (s: string)
    ensures |s| == n && AllDigits(s) && forall i :: 0 <= i < n ==> s[i] == '0'
  {
    if n == 0 then "" else Zeros(n - 1) + "0"
  }

  function PadStart(s: string, n: nat): string {
    if |s| < n then Zeros(n - |s|) + s else s
  }

  function PadEnd(s: string, n: nat): string {
    if |s| < n then s + Zeros(n - |s|) else s
  }

  /** `replace(/0+$/, "")`. */
  function StripZeros(s: string): (t: string)
    ensures |t| <= |s| && (t != "" ==> t[|t| - 1] != '0')
    ensures s == t + Zeros(|s| - |t|)
  {
    if s != "" && s[|s| - 1] == '0' then StripZeros(s[..|s| - 1]) else s
  }

  /** `baseUnits / scale` and `baseUnits % scale`. */
  function DivMod(n: nat, scale: nat): (qr: (nat, nat))
    requires scale > 0
    ensures n == qr.0 * scale + qr.1 && qr.1 < scale
  {
    (n / scale, n % scale)
  }

  const MAX_DECIMALS := 18

  /** `formatTokenBaseUnits`; more than 18 decimals are refused. */
  function FormatTokenBaseUnits(baseUnits: nat, decimals: nat): Option<string> {
    if decimals > MAX_DECIMALS then None else Some(Formatted(baseUnits, decimals))
  }

  function Formatted(baseUnits: nat, decimals: nat): string {
    var (w, r) := DivMod(baseUnits, Pow10(decimals));
    var whole := Dec(w);
    if decimals == 0 then whole
    else
      var fraction := StripZeros(PadStart(Dec(r), decimals));
      whole + if fraction != "" then "." + fraction else ".00"
  }

  /** Position of the first '.', or the length. */
  function Dot(s: string): (i: nat)
    ensures i <= |s| && (i < |s| ==> s[i] == '.') && forall j :: 0 <= j < i ==> s[j] != '.'
  {
    if s == "" || s[0] == '.' then 0
    else
      var i := Dot(s[1..]);
      assert forall j :: 0 < j < i + 1 ==> s[j] == s[1..][j - 1];
      assert i < |s[1..]| ==> s[i + 1] == s[1..][i];
      i + 1
  }

  /** `parseTokenAmount`: digits, and for a token with decimals at most that many after one dot. */
  function ParseTokenAmount(value: string, decimals: nat): Option<nat> {
    var i := Dot(value);
    var whole := value[..i];
    var fraction := if i < |value| then value[i + 1..] else "";
    if whole == "" || !AllDigits(whole) || !AllDigits(fraction) then None
    else if i < |value| && (fraction == "" || |fraction| > decimals) then None
    else Some(Amount(whole, fraction, decimals))
  }

  function Amount(whole: string, fraction: string, decimals: nat): nat
    requires AllDigits(whole) && AllDigits(fraction)
  {
    Num(whole) * Pow10(decimals) + NumPadded(fraction, decimals)
  }

  function NumPadded(fraction: string, decimals: nat): nat
    requires AllDigits(fraction)
  {
    assert AllDigits(PadEnd(fraction, decimals));
    Num(PadEnd(fraction, decimals))
  }

  lemma {:induction false} NumDec(n: nat)
    ensures Num(Dec(n)) == n
  {
    if n >= 10 {
      NumDec(n / 10);
      assert Dec(n)[..|Dec(n)| - 1] == Dec(n / 10);
    } else {
      assert Dec(n)[..0] == "";
    }
  }

  lemma {:induction false} DecLength(n: nat, d: nat)
    requires d >= 1 && n < Pow10(d)
    ensures |Dec(n)| <= d
  {
    if n >= 10 {
      DecLength(n / 10, d - 1);
    }
  }

  lemma {:induction false} NumOfZeros(k: nat)
    ensures Num(Zeros(k)) == 0
  {
    if k > 0 {
      NumOfZeros(k - 1);
      assert Zeros(k)[..k - 1] == Zeros(k - 1);
    }
  }

  lemma {:induction false} NumZeros(k: nat, s: string)
    requires AllDigits(s)
    ensures AllDigits(Zeros(k) + s) && Num(Zeros(k) + s) == Num(s)
  {
    hide Zeros;
    var t := Zeros(k) + s;
    if s == "" {
      assert t == Zeros(k);
      NumOfZeros(k);
    } else {
      NumZeros(k, s[..|s| - 1]);
      assert t[..|t| - 1] == Zeros(k) + s[..|s| - 1];
    }
  }

  /** The padded fraction has exactly `decimals` digits and the value of the remainder. */
  lemma {:induction false} PaddedFraction(r: nat, d: nat)
    requires d >= 1 && r < Pow10(d)
    ensures |PadStart(Dec(r), d)| == d && AllDigits(PadStart(Dec(r), d)) && Num(PadStart(Dec(r), d)) == r
  {
    hide Dec, Num, Pow10, PadStart, AllDigits, Zeros;
    DecLength(r, d);
    NumDec(r);
    PadNum(Dec(r), d);
  }

  /** Padding on the left changes no value. */
  lemma {:induction false} PadNum(s: string, d: nat)
    requires |s| <= d && AllDigits(s)
    ensures |PadStart(s, d)| == d && AllDigits(PadStart(s, d)) && Num(PadStart(s, d)) == Num(s)
  {
    hide Num, AllDigits, Zeros;
    NumZeros(d - |s|, s);
  }

  lemma {:induction false} DotAfterDigits(whole: string, rest: string)
    requires AllDigits(whole) && (rest == "" || rest[0] == '.')
    ensures Dot(whole + rest) == |whole|
  {
    var s := whole + rest;
    assert forall j :: 0 <= j < |whole| ==> IsDigit(s[j]);
    assert rest != "" ==> s[|whole|] == '.';
  }

  lemma TwoZeroDigits()
    ensures AllDigits("00")
  {
  }

  /** What is read from a whole part and a non-empty fraction. */
  lemma {:induction false} ReadParts(whole: string, fraction: string, d: nat)
    requires whole != "" && AllDigits(whole) && fraction != "" && AllDigits(fraction)
    ensures ParseTokenAmount(whole + ("." + fraction), d)
         == if |fraction| > d then None else Some(Num(whole) * Pow10(d) + NumPadded(fraction, d))
  {
    hide Num, Pow10, NumPadded;
    var s := whole + ("." + fraction);
    DotAfterDigits(whole, "." + fraction);
    assert s[..|whole|] == whole && s[|whole| + 1..] == fraction;
  }

  lemma {:induction false} ReadWhole(whole: string)
    requires whole != "" && AllDigits(whole)
    ensures ParseTokenAmount(whole, 0) == Some(Num(whole))
  {
    DotAfterDigits(whole, "");
    assert whole + "" == whole && whole[..|whole|] == whole;
    assert PadEnd("", 0) == "";
  }

  lemma ZerosFraction(d: nat)
    requires d >= 2
    ensures NumPadded("00", d) == 0
  {
    assert PadEnd("00", d) == Zeros(d);
    NumZeros(d, "");
    assert Zeros(d) + "" == Zeros(d);
  }

  /** Reading a formatted amount gives the amount back, except that a token with one decimal cannot
      read its own whole amounts: they are printed with two zeros. */
  lemma AmountRoundTripIff(baseUnits: nat, decimals: nat)
    ensures
      var text := FormatTokenBaseUnits(baseUnits, decimals);
      (text.Some? && ParseTokenAmount(text.value, decimals) == Some(baseUnits))
      <==> (decimals <= MAX_DECIMALS && !(decimals == 1 && baseUnits % 10 == 0))
  {
    hide Dec, Num, Pow10, StripZeros, PadStart, ParseTokenAmount, NumPadded, DivMod, AllDigits;
    var (w, r) := DivMod(baseUnits, Pow10(decimals));
    NumDec(w);
    if decimals == 0 {
      ReadWhole(Dec(w));
      ScaleOne(baseUnits, w, r);
    } else {
      PaddedFraction(r, decimals);
      FractionCases(r, decimals, PadStart(Dec(r), decimals));
      var fraction := StripZeros(PadStart(Dec(r), decimals));
      LastDigit(baseUnits, w, r, decimals);
      if fraction == "" {
        ReadTwoZeros(Dec(w), decimals);
      } else {
        ReadParts(Dec(w), fraction, decimals);
      }
    }
  }

  /** One whole unit of a token with one decimal is printed as "1.00" and then refused. */
  lemma OneDecimalFails()
    ensures FormatTokenBaseUnits(10, 1) == Some("1.00") && ParseTokenAmount("1.00", 1) == None
  {
    hide ParseTokenAmount;
    Scales();
    assert DivMod(10, 10) == (1, 0) && Dec(1) == "1" && Dec(0) == "0";
    assert PadStart("0", 1) == "0" && StripZeros("0") == "";
    ReadTwoZeros("1", 1);
    assert "1" + ".00" == "1.00";
  }

  // ------------------------------------------------------------ independent laws

  /** The digits are the ten decimal digits. */
  lemma {:induction false} DecimalDigits(d: nat)
    requires d < 10
    ensures DigitChar(d) == "0123456789"[d] && Dec(d) == ["0123456789"[d]] && Num(["0123456789"[d]]) == d
  {
    var s := ["0123456789"[d]];
    assert s[..0] == "";
  }

  /** Printing goes on digit by digit: ten times a number and one digit more is its text and that digit. */
  lemma DecSnoc(n: nat, d: nat)
    requires n > 0 && d < 10
    ensures Dec(10 * n + d) == Dec(n) + ["0123456789"[d]]
  {
    assert (10 * n + d) / 10 == n && (10 * n + d) % 10 == d;
  }

  lemma {:induction false} NumSnoc(s: string, d: nat)
    requires AllDigits(s) && d < 10
    ensures AllDigits(s + ["0123456789"[d]]) && Num(s + ["0123456789"[d]]) == 10 * Num(s) + d
  {
    var t := s + ["0123456789"[d]];
    assert t[..|t| - 1] == s;
  }

  lemma {:induction false} StripOneZero(s: string)
    ensures StripZeros(s + "0") == StripZeros(s)
  {
    var t := s + "0";
    assert t[..|t| - 1] == s;
  }

  /** Ten times the remainder, padded to one more digit, has one more trailing zero. */
  lemma {:induction false} PadTimesTen(r: nat, d: nat)
    requires d >= 1 && r < Pow10(d)
    ensures PadStart(Dec(10 * r), d + 1) == PadStart(Dec(r), d) + "0"
  {
    hide Pow10, Zeros, AllDigits;
    DecLength(r, d);
    if r == 0 {
      DecimalDigits(0);
      assert Dec(10 * r) == "0" && Dec(r) == "0";
      ZerosThenZero(d);
      ZerosThenZero(d - 1);
      EmptyZeros();
    } else {
      DecSnoc(r, 0);
      assert Dec(10 * r) == Dec(r) + "0" by { assert 10 * r + 0 == 10 * r; }
      assert Zeros(d - |Dec(r)|) + (Dec(r) + "0") == (Zeros(d - |Dec(r)|) + Dec(r)) + "0";
    }
  }

  lemma ZerosThenZero(n: nat)
    ensures Zeros(n + 1) == Zeros(n) + "0"
  {
  }

  lemma EmptyZeros()
    ensures Zeros(0) == ""
  {
  }

  lemma TenTimes(w: nat, p: nat, f: nat)
    ensures w * (10 * p) + 10 * f == 10 * (w * p + f)
  {
  }

  lemma DivModTimesTen(n: nat, scale: nat)
    requires scale > 0
    ensures DivMod(10 * n, 10 * scale) == (DivMod(n, scale).0, 10 * DivMod(n, scale).1)
  {
    var (q, r) := DivMod(n, scale);
    TenTimes(q, scale, r);
    SparseTrees.ModUnique(10 * n, 10 * scale, q, 10 * r);
  }

  /** The scale counts decimals: ten times the units with one decimal more is the same text. */
  lemma FormatShift(b: nat, d: nat)
    requires 1 <= d <= 17
    ensures FormatTokenBaseUnits(10 * b, d + 1) == FormatTokenBaseUnits(b, d)
  {
    var (w, r) := DivMod(b, Pow10(d));
    assert Pow10(d + 1) == 10 * Pow10(d);
    hide Pow10, Dec, StripZeros, PadStart, DivMod;
    DivModTimesTen(b, Pow10(d));
    PadTimesTen(r, d);
    StripOneZero(PadStart(Dec(r), d));
  }

  /** And an amount read with one decimal more is ten times as many units. */
  lemma ParseShift(t: string, d: nat, n: nat)
    requires ParseTokenAmount(t, d) == Some(n)
    ensures ParseTokenAmount(t, d + 1) == Some(10 * n)
  {
    var i := Dot(t);
    var whole, fraction := t[..i], if i < |t| then t[i + 1..] else "";
    assert |fraction| <= d && AllDigits(whole) && AllDigits(fraction);
    hide ParseTokenAmount, AllDigits, Dot;
    AmountShift(whole, fraction, d);
    ReadAgain(t, d);
  }

  lemma AmountShift(whole: string, fraction: string, d: nat)
    requires AllDigits(whole) && AllDigits(fraction) && |fraction| <= d
    ensures Amount(whole, fraction, d + 1) == 10 * Amount(whole, fraction, d)
  {
    assert Pow10(d + 1) == 10 * Pow10(d);
    PaddedShift(fraction, d);
    hide Num, Pow10, NumPadded, AllDigits;
    TenTimes(Num(whole), Pow10(d), NumPadded(fraction, d));
  }

  lemma PaddedShift(fraction: string, d: nat)
    requires AllDigits(fraction) && |fraction| <= d
    ensures NumPadded(fraction, d + 1) == 10 * NumPadded(fraction, d)
  {
    var padded := PadEnd(fraction, d);
    ZerosThenZero(d - |fraction|);
    EmptyZeros();
    assert PadEnd(fraction, d + 1) == padded + "0";
    NumSnoc(padded, 0);
  }

  /** A text that reads with `d` decimals reads with more. */
  lemma ReadAgain(t: string, d: nat)
    requires ParseTokenAmount(t, d).Some?
    ensures var i := Dot(t); var whole, fraction := t[..i], if i < |t| then t[i + 1..] else "";
      && AllDigits(whole) && AllDigits(fraction) && |fraction| <= d
      && ParseTokenAmount(t, d) == Some(Amount(whole, fraction, d))
      && ParseTokenAmount(t, d + 1) == Some(Amount(whole, fraction, d + 1))
  {
    hide Amount;
  }

  lemma ScaleOne(n: nat, w: nat, r: nat)
    requires n == w * Pow10(0) + r && r < Pow10(0)
    ensures w == n
  {
  }

  lemma {:induction false} LastDigit(n: nat, w: nat, r: nat, d: nat)
    requires n == w * Pow10(d) + r && r < Pow10(d)
    ensures d == 1 ==> (r == 0 <==> n % 10 == 0)
  {
    if d == 1 {
      Scales();
    }
  }

  /** A whole amount is printed with two zeros, which only a token with two decimals or more reads. */
  lemma {:induction false} ReadTwoZeros(whole: string, d: nat)
    requires whole != "" && AllDigits(whole) && d >= 1
    ensures ParseTokenAmount(whole + ".00", d) == if d == 1 then None else Some(Num(whole) * Pow10(d))
  {
    hide Num, Pow10, ParseTokenAmount, NumPadded, AllDigits;
    TwoZeroDigits();
    ReadParts(whole, "00", d);
    assert "." + "00" == ".00" && |"00"| == 2;
    if d >= 2 {
      ZerosFraction(d);
    }
  }

  lemma Scales()
    ensures Pow10(0) == 1 && Pow10(1) == 10
  {
    assert Pow10(1) == 10 * Pow10(0);
  }

  /** The stripped fraction: empty exactly for whole amounts, and padded back to the same digits. */
  lemma {:induction false} FractionCases(r: nat, d: nat, padded: string)
    requires d >= 1 && |padded| == d && AllDigits(padded) && Num(padded) == r
    ensures AllDigits(StripZeros(padded)) && |StripZeros(padded)| <= d
    ensures NumPadded(StripZeros(padded), d) == r
    ensures StripZeros(padded) == "" <==> r == 0
  {
    hide Num;
    var fraction := StripZeros(padded);
    assert forall i :: 0 <= i < |fraction| ==> fraction[i] == padded[i];
    assert PadEnd(fraction, d) == padded;
    if fraction == "" {
      assert padded == Zeros(d) + "";
      NumZeros(d, "");
      NumNothing();
    } else {
      PositiveNum(fraction, d - |fraction|);
    }
  }

  lemma NumNothing()
    ensures Num("") == 0
  {
  }

  lemma {:induction false} PositiveNum(s: string, k: nat)
    requires AllDigits(s) && s != "" && s[|s| - 1] != '0'
    ensures AllDigits(s + Zeros(k)) && Num(s + Zeros(k)) > 0
    decreases k
  {
    var t := s + Zeros(k);
    if k == 0 {
      assert t == s;
    } else {
      PositiveNum(s, k - 1);
      assert t[..|t| - 1] == s + Zeros(k - 1);
    }
  }
}
