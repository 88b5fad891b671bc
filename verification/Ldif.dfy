/**
 Writing and reading entries as LDIF (RFC 2849): frontend/src/lib/ldif.ts. Each loop of the
 source is a method, proved equal to the function the theorems speak about.
 */
module Ldif {
  import opened Wrappers
  import opened Text

  /** An own property of the attribute record and its values. */
  type Attribute = (string, seq<string>)

  /** The attributes stand in the order of Object.keys. */
  datatype Entry = Entry(dn: string, attributes: seq<Attribute>)

  datatype Problem = BadBase64 | Malformed(text: string) | ChangeType | BeforeDn(name: string)

  datatype ParseError = ParseError(line: nat, problem: Problem)

  /** Threw: a TypeError escapes from the parser. */
  datatype Outcome = Parsed(entries: seq<Entry>, errors: seq<ParseError>) | Threw

  /** btoa over UTF-8 and its partial inverse. */
  datatype Codec = Codec(encode: string -> string, decode: string -> Option<string>)

  predicate IsBase64Char(c: char) {
    IsAlpha(c) || IsDigit(c) || c == '+' || c == '/' || c == '='
  }

  ghost predicate Lossless(codec: Codec) {
    forall s :: codec.decode(codec.encode(s)) == Some(s) && forall c :: c in codec.encode(s) ==> IsBase64Char(c)
  }

  // --- Writing --------------------------------------------------------------------------

  predicate UnsafeChar(c: char) {
    c == '\0' || c == '\n' || c == '\r' || (c < ' ' && c != '\t') || c > '~'
  }

  predicate NeedsBase64(value: string) {
    value != "" && (value[0] in {' ', '\t', ':', '<', '\0'} || value[|value| - 1] == ' '
                    || exists i :: 0 <= i < |value| && UnsafeChar(value[i]))
  }

  method CheckBase64(value: string) returns (r: bool)
    ensures r <==> NeedsBase64(value)
  {
    if value == "" {
      return false;
    }
    if value[0] == ' ' || value[0] == '\t' || value[0] == ':' || value[0] == '<' || value[0] == '\0' {
      return true;
    }
    if value[|value| - 1] == ' ' {
      return true;
    }
    for i := 0 to |value|
      invariant forall k :: 0 <= k < i ==> !UnsafeChar(value[k])
    {
      if UnsafeChar(value[i]) {
        return true;
      }
    }
    return false;
  }

  /** SAFE-CHAR of RFC 2849. */
  predicate SafeChar(c: char) {
    '\U{0001}' <= c <= '\U{007F}' && c != '\n' && c != '\r'
  }

  /** SAFE-STRING of RFC 2849: safe characters, the first of them no space, colon or less-than. */
  predicate SafeString(s: string) {
    (forall i :: 0 <= i < |s| ==> SafeChar(s[i])) && (s != "" ==> s[0] !in {' ', ':', '<'})
  }

  /** What is written as it is: the safe strings without a blank at either end or a control character
      other than a tab. */
  lemma PlainIsSafe(value: string)
    ensures !NeedsBase64(value) <==>
      && SafeString(value) && (value != "" ==> value[0] != '\t' && value[|value| - 1] != ' ')
      && forall i :: 0 <= i < |value| ==> ' ' <= value[i] <= '~' || value[i] == '\t'
  {
    if !NeedsBase64(value) {
      assert forall i :: 0 <= i < |value| ==> !UnsafeChar(value[i]);
    }
  }

  /** A value is written after one colon and a space only if it is a safe string; any other as base64,
      after two. */
  lemma WrittenIsSafe(name: string, value: string, codec: Codec)
    ensures AttributeLine(name, value, codec) == name + ": " + value ==> SafeString(value)
    ensures !SafeString(value) ==> AttributeLine(name, value, codec) == name + ":: " + codec.encode(value)
  {
    PlainIsSafe(value);
    if NeedsBase64(value) {
      assert (name + ":: " + codec.encode(value))[|name| + 1] == ':' && (name + ": " + value)[|name| + 1] == ' ';
    }
  }

  /** The continuation lines: a space and the next piece. */
  function Continuations(s: string, content: nat): seq<string>
    requires content > 0
    decreases |s|
  {
    if s == "" then []
    else if |s| <= content then [" " + s]
    else [" " + s[..content]] + Continuations(s[content..], content)
  }

  function ContentPerLine(width: nat): nat {
    if width <= 1 then 1 else width - 1
  }

  function FoldParts(line: string, width: nat): (parts: seq<string>)
    ensures parts != []
  {
    if |line| <= width then [line] else [line[..width]] + Continuations(line[width..], ContentPerLine(width))
  }

  function FoldLine(line: string, width: nat): string {
    Join(FoldParts(line, width), "\n")
  }

  function From(line: string, offset: nat): string {
    if offset < |line| then line[offset..] else ""
  }

  lemma NextContinuation(line: string, offset: nat, content: nat)
    requires offset < |line| && content > 0
    ensures var end := if offset + content <= |line| then offset + content else |line|;
            Continuations(From(line, offset), content)
              == [" " + line[offset..end]] + Continuations(From(line, offset + content), content)
  {
    var s := line[offset..];
    if offset + content < |line| {
      assert s[content..] == line[offset + content..] && s[..content] == line[offset..offset + content];
    } else if offset + content == |line| {
      assert s == line[offset..offset + content];
    } else {
      assert s == line[offset..|line|];
    }
  }

  lemma FoldStarts(line: string, width: nat)
    requires |line| > width
    ensures FoldLine(line, width)
      == Join([line[..width]] + Continuations(From(line, width), ContentPerLine(width)), "\n")
    ensures ContentPerLine(width) > 0
  {
  }

  method Fold(line: string, width: nat) returns (folded: string)
    ensures folded == FoldLine(line, width)
  {
    if |line| <= width {
      return line;
    }
    FoldStarts(line, width);
    hide *;
    var parts := [line[..width]];
    var offset := width;
    var content := ContentPerLine(width);
    ghost var all := parts + Continuations(From(line, width), content);
    while offset < |line|
      invariant all == parts + Continuations(From(line, offset), content)
      decreases |line| - offset
    {
      NextContinuation(line, offset, content);
      var end := if offset + content <= |line| then offset + content else |line|;
      var part := " " + line[offset..end];
      Assoc(parts, [part], Continuations(From(line, offset + content), content));
      parts := parts + [part];
      offset := offset + content;
    }
    FoldEnds(line, offset, content);
    assert parts + [] == parts;
    folded := Join(parts, "\n");
  }

  lemma FoldEnds(line: string, offset: nat, content: nat)
    requires offset >= |line| && content > 0
    ensures Continuations(From(line, offset), content) == []
  {
  }

  function AttributeLine(name: string, value: string, codec: Codec): string {
    if NeedsBase64(value) then name + ":: " + codec.encode(value) else name + ": " + value
  }

  function ValueLines(name: string, values: seq<string>, codec: Codec): seq<string> {
    if values == [] then [] else [AttributeLine(name, values[0], codec)] + ValueLines(name, values[1..], codec)
  }

  function AttributeLines(attributes: seq<Attribute>, codec: Codec): seq<string> {
    if attributes == [] then []
    else ValueLines(attributes[0].0, attributes[0].1, codec) + AttributeLines(attributes[1..], codec)
  }

  function EntryLines(entry: Entry, codec: Codec): seq<string> {
    [AttributeLine("dn", entry.dn, codec)] + AttributeLines(entry.attributes, codec)
  }

  /** Entries are parted by an empty line; separate: one also comes before the first. */
  function EntriesLines(entries: seq<Entry>, separate: bool, codec: Codec): seq<string> {
    if entries == [] then []
    else (if separate then [""] else []) + EntryLines(entries[0], codec) + EntriesLines(entries[1..], true, codec)
  }

  function FoldAll(lines: seq<string>, width: nat): seq<string> {
    if lines == [] then [] else [FoldLine(lines[0], width)] + FoldAll(lines[1..], width)
  }

  /** The header: None when the version is left out. */
  function Header(version: Option<string>): seq<string> {
    match version
    case None => []
    case Some(v) => ["version: " + v]
  }

  function SerializeEntries(entries: seq<Entry>, version: Option<string>, width: nat, codec: Codec): string {
    Join(Header(version) + FoldAll(EntriesLines(entries, version.Some?, codec), width), "\n")
  }

  lemma {:induction false} FoldAllSplit(a: seq<string>, b: seq<string>, width: nat)
    ensures FoldAll(a + b, width) == FoldAll(a, width) + FoldAll(b, width)
  {
    hide FoldLine;
    if a == [] {
      assert a + b == b;
    } else {
      FoldAllSplit(a[1..], b, width);
      assert (a + b)[1..] == a[1..] + b;
    }
  }

  lemma NextValue(name: string, values: seq<string>, i: nat, width: nat, codec: Codec)
    requires i < |values|
    ensures FoldAll(ValueLines(name, values[i..], codec), width)
      == [FoldLine(AttributeLine(name, values[i], codec), width)] + FoldAll(ValueLines(name, values[i + 1..], codec), width)
  {
    assert values[i..][1..] == values[i + 1..];
    hide FoldLine, AttributeLine;
    var lines := ValueLines(name, values[i..], codec);
    assert lines[1..] == ValueLines(name, values[i + 1..], codec);
  }

  method SerializeValues(name: string, values: seq<string>, width: nat, codec: Codec) returns (lines: seq<string>)
    ensures lines == FoldAll(ValueLines(name, values, codec), width)
  {
    lines := [];
    assert values[0..] == values;
    ghost var all := FoldAll(ValueLines(name, values, codec), width);
    assert [] + all == all;
    for i := 0 to |values|
      invariant all == lines + FoldAll(ValueLines(name, values[i..], codec), width)
    {
      hide FoldAll, ValueLines, FoldLine, NeedsBase64;
      var base64 := CheckBase64(values[i]);
      var folded := Fold(if base64 then name + ":: " + codec.encode(values[i]) else name + ": " + values[i], width);
      NextValue(name, values, i, width, codec);
      Assoc(lines, [folded], FoldAll(ValueLines(name, values[i + 1..], codec), width));
      lines := lines + [folded];
    }
    assert lines + [] == lines;
  }

  lemma NextAttribute(attrs: seq<Attribute>, i: nat, width: nat, codec: Codec)
    requires i < |attrs|
    ensures FoldAll(AttributeLines(attrs[i..], codec), width)
      == FoldAll(ValueLines(attrs[i].0, attrs[i].1, codec), width) + FoldAll(AttributeLines(attrs[i + 1..], codec), width)
  {
    assert attrs[i..][1..] == attrs[i + 1..];
    hide FoldAll, ValueLines;
    FoldAllSplit(ValueLines(attrs[i].0, attrs[i].1, codec), AttributeLines(attrs[i + 1..], codec), width);
  }

  lemma FoldEntry(entry: Entry, width: nat, codec: Codec)
    ensures FoldAll(EntryLines(entry, codec), width)
      == FoldAll(ValueLines("dn", [entry.dn], codec), width) + FoldAll(AttributeLines(entry.attributes, codec), width)
  {
    assert ValueLines("dn", [entry.dn], codec) == [AttributeLine("dn", entry.dn, codec)] by {
      assert [entry.dn][1..] == [];
    }
    hide AttributeLines, FoldAll, ValueLines;
    FoldAllSplit([AttributeLine("dn", entry.dn, codec)], AttributeLines(entry.attributes, codec), width);
  }

  method SerializeEntry(entry: Entry, width: nat, codec: Codec) returns (lines: seq<string>)
    ensures lines == FoldAll(EntryLines(entry, codec), width)
  {
    var attrs := entry.attributes;
    ghost var all := FoldAll(EntryLines(entry, codec), width);
    FoldEntry(entry, width, codec);
    assert FoldAll(AttributeLines(attrs[|attrs|..], codec), width) == [];
    assert attrs[0..] == attrs;
    hide *;
    lines := SerializeValues("dn", [entry.dn], width, codec);
    for i := 0 to |attrs|
      invariant all == lines + FoldAll(AttributeLines(attrs[i..], codec), width)
    {
      var more := SerializeValues(attrs[i].0, attrs[i].1, width, codec);
      NextAttribute(attrs, i, width, codec);
      Assoc(lines, more, FoldAll(AttributeLines(attrs[i + 1..], codec), width));
      lines := lines + more;
    }
    assert lines + [] == lines;
  }

  lemma NextEntry(entries: seq<Entry>, i: nat, separate: bool, width: nat, codec: Codec)
    requires i < |entries|
    ensures FoldAll(EntriesLines(entries[i..], separate, codec), width)
      == (if separate then [""] else []) + FoldAll(EntryLines(entries[i], codec), width)
         + FoldAll(EntriesLines(entries[i + 1..], true, codec), width)
  {
    var blank := if separate then [""] else [];
    assert entries[i..][1..] == entries[i + 1..];
    assert FoldAll(blank, width) == blank by {
      assert [""][1..] == [];
    }
    hide FoldAll, EntryLines;
    FoldAllSplit(blank + EntryLines(entries[i], codec), EntriesLines(entries[i + 1..], true, codec), width);
    FoldAllSplit(blank, EntryLines(entries[i], codec), width);
  }

  method Serialize(entries: seq<Entry>, version: Option<string>, width: nat, codec: Codec) returns (text: string)
    ensures text == SerializeEntries(entries, version, width, codec)
  {
    ghost var all := Header(version) + FoldAll(EntriesLines(entries, version.Some?, codec), width);
    assert SerializeEntries(entries, version, width, codec) == Join(all, "\n");
    assert FoldAll(EntriesLines(entries[|entries|..], version.Some? || |entries| > 0, codec), width) == [];
    assert entries[0..] == entries;
    hide *;
    var lines := Header(version);
    for i := 0 to |entries|
      invariant all == lines + FoldAll(EntriesLines(entries[i..], version.Some? || i > 0, codec), width)
    {
      var more := SerializeEntry(entries[i], width, codec);
      var blank := if version.Some? || i > 0 then [""] else [];
      NextEntry(entries, i, version.Some? || i > 0, width, codec);
      Assoc(lines, blank + more, FoldAll(EntriesLines(entries[i + 1..], true, codec), width));
      lines := lines + (blank + more);
    }
    assert lines + [] == lines;
    text := Join(lines, "\n");
  }

  // --- Reading lines --------------------------------------------------------------------

  /** text.split(/\r\n|\r|\n/) */
  function PhysicalLines(s: string): (lines: seq<string>)
    ensures lines != []
  {
    if s == "" then [""]
    else if |s| > 1 && s[0] == '\r' && s[1] == '\n' then [""] + PhysicalLines(s[2..])
    else if s[0] == '\r' || s[0] == '\n' then [""] + PhysicalLines(s[1..])
    else
      var rest := PhysicalLines(s[1..]);
      [[s[0]] + rest[0]] + rest[1..]
  }

  datatype Kind = Blank | Comment | Content

  datatype Line = Line(text: string, start: nat, kind: Kind)

  function StartLine(raw: string, start: nat): Line {
    if raw == "" then Line("", start, Blank)
    else if raw[0] == '#' then Line(raw, start, Comment)
    else Line(raw, start, Content)
  }

  predicate Continues(raw: string, current: Option<Line>) {
    raw != "" && raw[0] == ' ' && current.Some? && current.value.kind != Blank
  }

  function Extend(current: Line, raw: string): Line
    requires raw != ""
  {
    current.(text := current.text + if current.kind == Comment then raw else raw[1..])
  }

  function Pending(current: Option<Line>): seq<Line> {
    match current case None => [] case Some(line) => [line]
  }

  /** The logical lines of the physical lines from number start on, after the one in progress. */
  function Unfold(physical: seq<string>, start: nat, current: Option<Line>): seq<Line>
    decreases |physical|
  {
    if physical == [] then Pending(current)
    else if Continues(physical[0], current) then
      Unfold(physical[1..], start + 1, Some(Extend(current.value, physical[0])))
    else Pending(current) + Unfold(physical[1..], start + 1, Some(StartLine(physical[0], start)))
  }

  method UnfoldLines(text: string) returns (out: seq<Line>)
    ensures out == Unfold(PhysicalLines(text), 1, None)
  {
    var physical := PhysicalLines(text);
    out := [];
    var current: Option<Line> := None;
    for i := 0 to |physical|
      invariant Unfold(physical, 1, None) == out + Unfold(physical[i..], i + 1, current)
    {
      var raw := physical[i];
      assert physical[i..][1..] == physical[i + 1..];
      if raw != "" && raw[0] == ' ' && current.Some? && current.value.kind != Blank {
        current := Some(Extend(current.value, raw));
      } else {
        out := out + Pending(current);
        current := Some(StartLine(raw, i + 1));
      }
    }
    out := out + Pending(current);
  }

  datatype LineResult = Pair(name: string, value: string) | NotALine | Undecodable

  /** rest.replace(/^[ \t]+/, '') */
  function StripBlanks(s: string): string {
    if s != "" && (s[0] == ' ' || s[0] == '\t') then StripBlanks(s[1..]) else s
  }

  function ParseAttributeLine(line: string, codec: Codec): LineResult {
    var colon := IndexOf(line, ':');
    if colon <= 0 || !IsAttributeDescription(line[..colon]) then NotALine else
    var rest := line[colon + 1..];
    if rest != "" && rest[0] == ':' then
      match codec.decode(StripBlanks(rest[1..]))
      case None => Undecodable
      case Some(value) => Pair(line[..colon], value)
    else Pair(line[..colon], StripBlanks(rest))
  }

  // --- Reading entries ------------------------------------------------------------------

  /** The legal attribute names that {} inherits from Object.prototype. */
  const INHERITED := ["constructor", "hasOwnProperty", "isPrototypeOf", "propertyIsEnumerable", "toLocaleString",
    "toString", "valueOf"]

  predicate IsInherited(name: string) {
    name in INHERITED
  }

  function Find(attributes: seq<Attribute>, name: string): (i: nat)
    ensures i <= |attributes|
    ensures i < |attributes| ==> attributes[i].0 == name
    ensures forall k :: 0 <= k < i ==> attributes[k].0 != name
  {
    if attributes == [] || attributes[0].0 == name then 0 else 1 + Find(attributes[1..], name)
  }

  function AddValue(attributes: seq<Attribute>, name: string, value: string): seq<Attribute> {
    var i := Find(attributes, name);
    if i < |attributes| then attributes[i := (name, attributes[i].1 + [value])]
    else attributes + [(name, [value])]
  }

  datatype State =
    | Reading(entries: seq<Entry>, errors: seq<ParseError>, entry: Option<Entry>, bad: bool)
    | Thrown

  function Flush(s: State): State
    requires s.Reading?
  {
    Reading(if s.entry.Some? && !s.bad then s.entries + [s.entry.value] else s.entries, s.errors, None, false)
  }

  function Fail(s: State, line: Line, problem: Problem): State
    requires s.Reading?
  {
    s.(errors := s.errors + [ParseError(line.start, problem)], bad := true)
  }

  /** /^version\s*:/i */
  predicate IsVersionLine(text: string) {
    |text| >= 7 && Lower(text[..7]) == "version" && TrimStart(text[7..]) != "" && TrimStart(text[7..])[0] == ':'
  }

  function Step(s: State, line: Line, codec: Codec): State {
    if s.Thrown? || line.kind == Comment then s
    else if line.kind == Blank then Flush(s)
    else if s.entry.None? && IsVersionLine(line.text) then s
    else
      match ParseAttributeLine(line.text, codec)
      case Undecodable => Fail(s, line, BadBase64)
      case NotALine => Fail(s, line, Malformed(line.text))
      case Pair(name, value) => StepPair(s, line, name, value)
  }

  function StepPair(s: State, line: Line, name: string, value: string): State
    requires s.Reading?
  {
    if Lower(name) == "changetype" then Fail(s, line, ChangeType)
    else if Lower(name) == "dn" then
      var flushed := if s.entry.Some? then Flush(s) else s;
      flushed.(bad := false, entry := Some(Entry(value, [])))
    else if s.entry.None? then Fail(s, line, BeforeDn(name))
    else if IsInherited(name) then Thrown
    else s.(entry := Some(s.entry.value.(attributes := AddValue(s.entry.value.attributes, name, value))))
  }

  function Run(s: State, lines: seq<Line>, codec: Codec): State
    decreases |lines|
  {
    if lines == [] then s else Run(Step(s, lines[0], codec), lines[1..], codec)
  }

  const INITIAL := Reading([], [], None, false)

  function Finish(s: State): Outcome {
    match s
    case Thrown => Threw
    case Reading(_, _, _, _) => Parsed(Flush(s).entries, s.errors)
  }

  function ParseLdif(text: string, codec: Codec): Outcome {
    if text == "" then Parsed([], []) else Finish(Run(INITIAL, Unfold(PhysicalLines(text), 1, None), codec))
  }

  lemma {:induction false} RunThrown(lines: seq<Line>, codec: Codec)
    ensures Run(Thrown, lines, codec) == Thrown
  {
    if lines != [] {
      RunThrown(lines[1..], codec);
    }
  }

  /** The state machine, with its variables assigned line by line. */
  method Parse(text: string, codec: Codec) returns (result: Outcome)
    ensures result == ParseLdif(text, codec)
  {
    if text == "" {
      return Parsed([], []);
    }
    var logical := UnfoldLines(text);
    var entries: seq<Entry>, errors: seq<ParseError> := [], [];
    var entry: Option<Entry>, entryHasError := None, false;
    for i := 0 to |logical|
      invariant Run(INITIAL, logical, codec) == Run(Reading(entries, errors, entry, entryHasError), logical[i..], codec)
    {
      var item := logical[i];
      ghost var before := Reading(entries, errors, entry, entryHasError);
      assert logical[i..][0] == item && logical[i..][1..] == logical[i + 1..];
      hide ParseAttributeLine, IsVersionLine;
      if item.kind == Comment {
        continue;
      }
      if item.kind == Blank {
        if entry.Some? && !entryHasError {
          entries := entries + [entry.value];
        }
        entry, entryHasError := None, false;
        continue;
      }
      if entry.None? && IsVersionLine(item.text) {
        continue;
      }
      var parsed := ParseAttributeLine(item.text, codec);
      if parsed.Undecodable? {
        errors, entryHasError := errors + [ParseError(item.start, BadBase64)], true;
        continue;
      }
      if parsed.NotALine? {
        errors, entryHasError := errors + [ParseError(item.start, Malformed(item.text))], true;
        continue;
      }
      var lowerName := Lower(parsed.name);
      if lowerName == "changetype" {
        errors, entryHasError := errors + [ParseError(item.start, ChangeType)], true;
        continue;
      }
      if lowerName == "dn" {
        if entry.Some? && !entryHasError {
          entries := entries + [entry.value];
        }
        entryHasError := false;
        entry := Some(Entry(parsed.value, []));
        continue;
      }
      if entry.None? {
        errors, entryHasError := errors + [ParseError(item.start, BeforeDn(parsed.name))], true;
        continue;
      }
      if IsInherited(parsed.name) {
        assert Step(before, item, codec) == Thrown;
        RunThrown(logical[i + 1..], codec);
        return Threw;
      }
      entry := Some(entry.value.(attributes := AddValue(entry.value.attributes, parsed.name, parsed.value)));
    }
    if entry.Some? && !entryHasError {
      entries := entries + [entry.value];
    }
    result := Parsed(entries, errors);
  }
}
