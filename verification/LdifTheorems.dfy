/** Reading back what was written as LDIF: frontend/src/lib/ldif.ts. */
module LdifTheorems {
  import opened Wrappers
  import opened Text
  import opened Ldif

  // --- Physical lines -------------------------------------------------------------------

  predicate Clean(s: string) {
    '\n' !in s && '\r' !in s
  }

  lemma {:induction false} LineThen(a: string, b: string)
    requires Clean(a)
    ensures PhysicalLines(a + ("\n" + b)) == [a] + PhysicalLines(b)
  {
    if a == "" {
      assert a + ("\n" + b) == "\n" + b && ("\n" + b)[1..] == b;
    } else {
      LineThen(a[1..], b);
      var s := a + ("\n" + b);
      assert s[0] == a[0] && s[0] in a && s[1..] == a[1..] + ("\n" + b);
      assert [a[0]] + a[1..] == a;
    }
  }

  lemma {:induction false} OneLine(a: string)
    requires Clean(a)
    ensures PhysicalLines(a) == [a]
  {
    if a != "" {
      assert a[0] in a;
      OneLine(a[1..]);
      assert [a[0]] + a[1..] == a;
    }
  }

  predicate AllClean(parts: seq<string>) {
    forall p :: p in parts ==> Clean(p)
  }

  lemma JoinCons(x: string, rest: seq<string>)
    requires rest != []
    ensures Join([x] + rest, "\n") == x + ("\n" + Join(rest, "\n"))
  {
    assert ([x] + rest)[1..] == rest;
  }

  lemma {:induction false} LinesOfJoin(parts: seq<string>)
    requires parts != [] && AllClean(parts)
    ensures PhysicalLines(Join(parts, "\n")) == parts
  {
    var first, rest := parts[0], parts[1..];
    assert first in parts && forall p :: p in rest ==> p in parts;
    if rest == [] {
      OneLine(first);
      assert parts == [first];
    } else {
      hide PhysicalLines, Join, Clean;
      assert parts == [first] + rest;
      LinesOfJoin(rest);
      JoinCons(first, rest);
      LineThen(first, Join(rest, "\n"));
    }
  }

  // --- Folded lines ---------------------------------------------------------------------

  /** The physical lines of folded lines. */
  function Flat(lines: seq<string>, width: nat): seq<string> {
    if lines == [] then [] else FoldParts(lines[0], width) + Flat(lines[1..], width)
  }

  lemma {:induction false} JoinBoth(a: seq<string>, b: seq<string>)
    requires a != [] && b != []
    ensures Join(a + b, "\n") == Join(a, "\n") + "\n" + Join(b, "\n")
  {
    assert a == [a[0]] + a[1..];
    if |a| == 1 {
      assert a + b == [a[0]] + b;
      JoinCons(a[0], b);
    } else {
      hide Join;
      JoinBoth(a[1..], b);
      JoinCons(a[0], a[1..]);
      JoinCons(a[0], a[1..] + b);
      assert a + b == [a[0]] + (a[1..] + b);
    }
  }

  lemma {:induction false} JoinFlat(lines: seq<string>, width: nat)
    requires lines != []
    ensures Flat(lines, width) != [] && FoldAll(lines, width) != []
    ensures Join(FoldAll(lines, width), "\n") == Join(Flat(lines, width), "\n")
  {
    var parts, rest := FoldParts(lines[0], width), lines[1..];
    assert FoldAll(lines, width) == [FoldLine(lines[0], width)] + FoldAll(rest, width);
    assert Flat(lines, width) == parts + Flat(rest, width);
    if rest == [] {
      assert parts + [] == parts;
    } else {
      JoinFlat(rest, width);
      hide FoldAll, Flat, Join, FoldParts;
      JoinCons(FoldLine(lines[0], width), FoldAll(rest, width));
      JoinBoth(parts, Flat(rest, width));
    }
  }

  lemma {:induction false} CleanContinuations(s: string, content: nat)
    requires Clean(s) && content > 0
    ensures AllClean(Continuations(s, content))
    decreases |s|
  {
    if |s| > content {
      CleanContinuations(s[content..], content);
      assert Clean(" " + s[..content]);
    } else {
      assert Clean(" " + s);
    }
  }

  lemma CleanParts(line: string, width: nat)
    requires Clean(line)
    ensures AllClean(FoldParts(line, width))
  {
    if |line| > width {
      CleanContinuations(line[width..], ContentPerLine(width));
    }
  }

  lemma {:induction false} CleanFlat(lines: seq<string>, width: nat)
    requires AllClean(lines)
    ensures AllClean(Flat(lines, width))
  {
    if lines != [] {
      assert lines[0] in lines && forall l :: l in lines[1..] ==> l in lines;
      CleanParts(lines[0], width);
      CleanFlat(lines[1..], width);
      hide FoldParts;
    }
  }

  /** No physical line is wider than asked, except that a width of one still needs two. */
  lemma FoldedWidth(line: string, width: nat)
    requires width > 0
    ensures (forall p :: p in FoldParts(line, width) ==> |p| <= width) <==> width > 1 || |line| <= width
  {
    if |line| > width {
      ContinuationWidth(line[width..], ContentPerLine(width));
      if width == 1 {
        var more := Continuations(line[1..], 1);
        assert more[0] in FoldParts(line, 1) && |more[0]| == 2;
      }
    }
  }

  lemma {:induction false} ContinuationWidth(s: string, content: nat)
    requires content > 0
    ensures forall p :: p in Continuations(s, content) ==> 1 < |p| <= content + 1
    decreases |s|
  {
    if |s| > content {
      ContinuationWidth(s[content..], content);
    }
  }

  // --- Unfolding undoes folding ---------------------------------------------------------

  lemma {:induction false} UnfoldContinuations(s: string, content: nat, start: nat, current: Line, rest: seq<string>)
    requires content > 0 && current.kind == Content
    ensures Unfold(Continuations(s, content) + rest, start, Some(current))
      == Unfold(rest, start + |Continuations(s, content)|, Some(current.(text := current.text + s)))
    decreases |s|
  {
    if s == "" {
      assert Continuations(s, content) + rest == rest && current.text + s == current.text;
    } else {
      var n := if |s| <= content then |s| else content;
      var raw := " " + s[..n];
      var more := Continuations(s[n..], content);
      assert s[..|s|] == s;
      assert Continuations(s, content) == [raw] + more;
      assert ([raw] + more + rest)[1..] == more + rest && ([raw] + more + rest)[0] == raw;
      assert raw[1..] == s[..n];
      var next := current.(text := current.text + s[..n]);
      assert current.text + s[..n] + s[n..] == current.text + s by {
        assert s[..n] + s[n..] == s;
      }
      UnfoldStep(raw, more + rest, start, current);
      UnfoldContinuations(s[n..], content, start + 1, next, rest);
    }
  }

  lemma UnfoldStep(raw: string, rest: seq<string>, start: nat, current: Line)
    requires current.kind == Content && raw != "" && raw[0] == ' '
    ensures Unfold([raw] + rest, start, Some(current))
      == Unfold(rest, start + 1, Some(current.(text := current.text + raw[1..])))
  {
    assert ([raw] + rest)[1..] == rest;
  }

  /** A line that can stand at the start of a physical line as what it is. */
  predicate Anchored(line: string) {
    line != "" ==> line[0] != ' ' && line[0] != '#'
  }

  function KindOf(line: string): Kind {
    if line == "" then Blank else Content
  }

  lemma UnfoldLine(line: string, width: nat, start: nat, current: Option<Line>, rest: seq<string>)
    requires width > 0 && Anchored(line)
    ensures Unfold(FoldParts(line, width) + rest, start, current)
      == Pending(current) + Unfold(rest, start + |FoldParts(line, width)|, Some(Line(line, start, KindOf(line))))
  {
    var first := if |line| <= width then line else line[..width];
    var more := if |line| <= width then [] else Continuations(line[width..], ContentPerLine(width));
    assert FoldParts(line, width) + rest == [first] + (more + rest);
    assert ([first] + (more + rest))[1..] == more + rest;
    if |line| <= width {
      assert more + rest == rest;
    } else {
      UnfoldContinuations(line[width..], ContentPerLine(width), start + 1, Line(first, start, Content), rest);
      assert first + line[width..] == line;
    }
  }

  /** Logical lines with these texts, wherever they start. */
  predicate Matches(items: seq<Line>, texts: seq<string>) {
    |items| == |texts| && forall i :: 0 <= i < |items| ==> items[i].text == texts[i] && items[i].kind == KindOf(texts[i])
  }

  lemma {:induction false} UnfoldFlat(lines: seq<string>, width: nat, start: nat, current: Option<Line>) returns (items: seq<Line>)
    requires width > 0 && forall l :: l in lines ==> Anchored(l)
    ensures Unfold(Flat(lines, width), start, current) == Pending(current) + items && Matches(items, lines)
    decreases |lines|
  {
    if lines == [] {
      items := [];
      assert Pending(current) + [] == Pending(current);
    } else {
      var first, later := lines[0], lines[1..];
      assert first in lines && forall l :: l in later ==> l in lines;
      assert Flat(lines, width) == FoldParts(first, width) + Flat(later, width);
      var line := Line(first, start, KindOf(first));
      assert Pending(Some(line)) == [line];
      hide *;
      var rest := UnfoldFlat(later, width, start + |FoldParts(first, width)|, Some(line));
      items := [line] + rest;
      UnfoldLine(first, width, start, current, Flat(later, width));
      Assoc(Pending(current), [line], rest);
      MatchesCons(line, rest, lines);
    }
  }

  lemma MatchesCons(item: Line, items: seq<Line>, texts: seq<string>)
    requires texts != [] && item.text == texts[0] && item.kind == KindOf(texts[0]) && Matches(items, texts[1..])
    ensures Matches([item] + items, texts)
  {
    hide KindOf;
    var all := [item] + items;
    forall i | 0 < i < |all| ensures all[i].text == texts[i] && all[i].kind == KindOf(texts[i]) {
      assert all[i] == items[i - 1] && texts[i] == texts[1..][i - 1];
    }
  }

  // --- Single lines ---------------------------------------------------------------------

  lemma WrittenLine(name: string, value: string, codec: Codec)
    requires IsAttributeDescription(name) && Lossless(codec)
    ensures ParseAttributeLine(AttributeLine(name, value, codec), codec) == Pair(name, value)
  {
    AttributeShape(name);
    assert ':' !in name;
    if NeedsBase64(value) {
      var code := codec.encode(value);
      assert codec.decode(code) == Some(value);
      ReadsBase64(name, code, codec);
    } else {
      ReadsPlain(name, value, codec);
    }
  }

  lemma ColonAt(name: string, rest: string)
    requires ':' !in name
    ensures IndexOf(name + (":" + rest), ':') == |name|
    ensures (name + (":" + rest))[..|name|] == name && (name + (":" + rest))[|name| + 1..] == rest
  {
    assert name + (":" + rest) == name + [':'] + rest;
    IndexOfAt(name, ':', rest);
  }

  function ReadRest(name: string, rest: string, codec: Codec): LineResult {
    if rest != "" && rest[0] == ':' then
      match codec.decode(StripBlanks(rest[1..])) case None => Undecodable case Some(value) => Pair(name, value)
    else Pair(name, StripBlanks(rest))
  }

  lemma ReadsRest(name: string, rest: string, codec: Codec)
    requires IsAttributeDescription(name) && name != "" && ':' !in name
    ensures ParseAttributeLine(name + (":" + rest), codec) == ReadRest(name, rest, codec)
  {
    hide IsAttributeDescription, StripBlanks;
    ColonAt(name, rest);
  }

  lemma StripsOne(s: string)
    requires s != "" ==> s[0] != ' ' && s[0] != '\t'
    ensures StripBlanks(" " + s) == s
  {
    assert (" " + s)[1..] == s;
  }

  lemma ReadsBase64(name: string, code: string, codec: Codec)
    requires IsAttributeDescription(name) && name != "" && ':' !in name && codec.decode(code).Some?
    requires forall c :: c in code ==> IsBase64Char(c)
    ensures ParseAttributeLine(name + ":: " + code, codec) == Pair(name, codec.decode(code).value)
  {
    hide IsAttributeDescription, ParseAttributeLine, StripBlanks;
    var rest := ": " + code;
    assert name + ":: " + code == name + (":" + rest);
    ReadsRest(name, rest, codec);
    assert rest[1..] == " " + code;
    assert code != "" ==> code[0] in code;
    StripsOne(code);
  }

  lemma ReadsPlain(name: string, value: string, codec: Codec)
    requires IsAttributeDescription(name) && name != "" && ':' !in name && !NeedsBase64(value)
    ensures ParseAttributeLine(name + ": " + value, codec) == Pair(name, value)
  {
    hide IsAttributeDescription, ParseAttributeLine, StripBlanks;
    var rest := " " + value;
    assert name + ": " + value == name + (":" + rest);
    ReadsRest(name, rest, codec);
    StripsOne(value);
  }

  lemma WrittenShape(name: string, value: string, codec: Codec)
    requires IsAttributeDescription(name) && Lossless(codec)
    ensures var line := AttributeLine(name, value, codec);
            line != "" && Clean(line) && Anchored(line) && KindOf(line) == Content
  {
    AttributeShape(name);
    hide IsAttributeDescription, Trimmed;
    var line := AttributeLine(name, value, codec);
    assert line[0] == name[0] && IsAttrChar(name[0]);
    assert Clean(name) by {
      assert !IsAttrChar('\n') && !IsAttrChar('\r');
    }
    if NeedsBase64(value) {
      assert !IsBase64Char('\n') && !IsBase64Char('\r');
      assert Clean(codec.encode(value));
    } else {
      assert UnsafeChar('\n') && UnsafeChar('\r');
      assert Clean(value);
    }
  }

  // --- The state machine over written entries -------------------------------------------

  /** What the record type guarantees: no key twice. */
  predicate DistinctNames(attributes: seq<Attribute>) {
    forall i, j :: 0 <= i < j < |attributes| ==> attributes[i].0 != attributes[j].0
  }

  predicate LegalAttribute(a: Attribute) {
    IsAttributeDescription(a.0) && Lower(a.0) != "dn" && Lower(a.0) != "changetype" && a.1 != []
  }

  predicate Legal(e: Entry) {
    forall a :: a in e.attributes ==> LegalAttribute(a)
  }

  /** An attribute named like a member of Object.prototype. */
  predicate Inherits(attributes: seq<Attribute>) {
    exists i :: 0 <= i < |attributes| && IsInherited(attributes[i].0)
  }

  lemma {:induction false} RunSplit(s: State, a: seq<Line>, b: seq<Line>, codec: Codec)
    ensures Run(s, a + b, codec) == Run(Run(s, a, codec), b, codec)
    decreases |a|
  {
    if a == [] {
      assert a + b == b;
    } else {
      assert (a + b)[0] == a[0] && (a + b)[1..] == a[1..] + b;
      RunSplit(Step(s, a[0], codec), a[1..], b, codec);
      hide Step;
    }
  }

  lemma MatchesSplit(items: seq<Line>, a: seq<string>, b: seq<string>) returns (first: seq<Line>, rest: seq<Line>)
    requires Matches(items, a + b)
    ensures items == first + rest && Matches(first, a) && Matches(rest, b)
  {
    first, rest := items[..|a|], items[|a|..];
    forall i | 0 <= i < |b| ensures rest[i].text == b[i] && rest[i].kind == KindOf(b[i]) {
      assert (a + b)[|a| + i] == b[i];
    }
    forall i | 0 <= i < |a| ensures first[i].text == a[i] && first[i].kind == KindOf(a[i]) {
      assert (a + b)[i] == a[i];
    }
  }

  function InEntry(done: seq<Entry>, dn: string, attributes: seq<Attribute>): State {
    Reading(done, [], Some(Entry(dn, attributes)), false)
  }

  lemma StepParsed(s: State, item: Line, codec: Codec)
    requires s.Reading? && s.entry.Some? && item.kind == Content && ParseAttributeLine(item.text, codec).Pair?
    ensures var parsed := ParseAttributeLine(item.text, codec);
            Step(s, item, codec) == StepPair(s, item, parsed.name, parsed.value)
  {
    hide ParseAttributeLine, StepPair;
  }

  lemma StepValue(done: seq<Entry>, dn: string, attributes: seq<Attribute>, item: Line, name: string, value: string, codec: Codec)
    requires LegalAttribute((name, [value])) && Lossless(codec)
    requires item.text == AttributeLine(name, value, codec) && item.kind == KindOf(item.text)
    ensures Step(InEntry(done, dn, attributes), item, codec)
      == if IsInherited(name) then Thrown else InEntry(done, dn, AddValue(attributes, name, value))
  {
    hide ParseAttributeLine, AttributeLine, AddValue, IsAttributeDescription, Lossless, Lower, Step, KindOf, IsInherited;
    WrittenLine(name, value, codec);
    WrittenShape(name, value, codec);
    StepParsed(InEntry(done, dn, attributes), item, codec);
  }

  lemma FindLast(prefix: seq<Attribute>, name: string, values: seq<string>)
    requires forall i :: 0 <= i < |prefix| ==> prefix[i].0 != name
    ensures Find(prefix + [(name, values)], name) == |prefix| && Find(prefix, name) == |prefix|
  {
    var all := prefix + [(name, values)];
    assert all[|prefix|].0 == name;
    assert forall i :: 0 <= i < |prefix| ==> all[i] == prefix[i];
    var i := Find(all, name);
    assert i >= |prefix|;
  }

  lemma AddLast(prefix: seq<Attribute>, name: string, values: seq<string>, value: string)
    requires forall i :: 0 <= i < |prefix| ==> prefix[i].0 != name
    ensures AddValue(prefix, name, value) == prefix + [(name, [value])]
    ensures AddValue(prefix + [(name, values)], name, value) == prefix + [(name, values + [value])]
  {
    FindLast(prefix, name, values);
  }

  lemma RunHead(s: State, item: Line, items: seq<Line>, codec: Codec)
    ensures Run(s, [item] + items, codec) == Run(Step(s, item, codec), items, codec)
  {
    assert ([item] + items)[1..] == items;
    hide Step;
  }

  lemma SplitValueItems(name: string, values: seq<string>, items: seq<Line>, codec: Codec)
    returns (first: Line, rest: seq<Line>)
    requires values != [] && Matches(items, ValueLines(name, values, codec))
    ensures items == [first] + rest && Matches(rest, ValueLines(name, values[1..], codec))
    ensures first.text == AttributeLine(name, values[0], codec) && first.kind == KindOf(first.text)
  {
    assert ValueLines(name, values, codec) == [AttributeLine(name, values[0], codec)] + ValueLines(name, values[1..], codec);
    hide ValueLines, AttributeLine, KindOf;
    var one, more := MatchesSplit(items, [AttributeLine(name, values[0], codec)], ValueLines(name, values[1..], codec));
    first, rest := one[0], more;
    assert one == [first];
  }

  lemma LegalWith(name: string, values: seq<string>, others: seq<string>)
    requires LegalAttribute((name, values)) && others != []
    ensures LegalAttribute((name, others))
  {
  }

  lemma RunNoValues(s: State, name: string, items: seq<Line>, codec: Codec)
    requires Matches(items, ValueLines(name, [], codec))
    ensures Run(s, items, codec) == s
  {
  }

  /** The remaining values of an attribute join those already read. */
  lemma {:induction false} RunValues(done: seq<Entry>, dn: string, prefix: seq<Attribute>, name: string, read: seq<string>,
                  values: seq<string>, items: seq<Line>, codec: Codec)
    requires forall i :: 0 <= i < |prefix| ==> prefix[i].0 != name
    requires LegalAttribute((name, [""])) && !IsInherited(name) && Lossless(codec)
    requires Matches(items, ValueLines(name, values, codec))
    ensures Run(InEntry(done, dn, prefix + [(name, read)]), items, codec) == InEntry(done, dn, prefix + [(name, read + values)])
    decreases |values|
  {
    hide *;
    if values == [] {
      RunNoValues(InEntry(done, dn, prefix + [(name, read)]), name, items, codec);
      assert read + values == read;
    } else {
      var first, rest := SplitValueItems(name, values, items, codec);
      var attributes := prefix + [(name, read)];
      AddLast(prefix, name, read, values[0]);
      LegalWith(name, [""], [values[0]]);
      StepValue(done, dn, attributes, first, name, values[0], codec);
      RunHead(InEntry(done, dn, attributes), first, rest, codec);
      RunValues(done, dn, prefix, name, read + [values[0]], values[1..], rest, codec);
      assert read + [values[0]] + values[1..] == read + values;
    }
  }

  lemma RunAttribute(done: seq<Entry>, dn: string, prefix: seq<Attribute>, a: Attribute, items: seq<Line>, codec: Codec)
    requires forall i :: 0 <= i < |prefix| ==> prefix[i].0 != a.0
    requires LegalAttribute(a) && Lossless(codec)
    requires Matches(items, ValueLines(a.0, a.1, codec))
    ensures Run(InEntry(done, dn, prefix), items, codec)
      == if IsInherited(a.0) then Thrown else InEntry(done, dn, prefix + [a])
  {
    var (name, values) := a;
    assert values != [];
    hide *;
    var first, rest := SplitValueItems(name, values, items, codec);
    LegalWith(name, values, [values[0]]);
    LegalWith(name, values, [""]);
    StepValue(done, dn, prefix, first, name, values[0], codec);
    RunHead(InEntry(done, dn, prefix), first, rest, codec);
    AddLast(prefix, name, [], values[0]);
    if IsInherited(name) {
      RunThrown(rest, codec);
    } else {
      RunValues(done, dn, prefix, name, [values[0]], values[1..], rest, codec);
      assert [values[0]] + values[1..] == values;
    }
  }

  lemma {:induction false} RunAttributes(done: seq<Entry>, dn: string, prefix: seq<Attribute>, attributes: seq<Attribute>,
                      items: seq<Line>, codec: Codec)
    requires DistinctNames(prefix + attributes) && (forall a :: a in attributes ==> LegalAttribute(a)) && Lossless(codec)
    requires Matches(items, AttributeLines(attributes, codec))
    ensures Run(InEntry(done, dn, prefix), items, codec)
      == if Inherits(attributes) then Thrown else InEntry(done, dn, prefix + attributes)
    decreases |attributes|
  {
    hide *;
    if attributes == [] {
      RunNoAttributes(InEntry(done, dn, prefix), items, codec);
      assert prefix + attributes == prefix;
    } else {
      var a, more := attributes[0], attributes[1..];
      assert a in attributes && forall x :: x in more ==> x in attributes;
      var first, rest := SplitAttributeItems(attributes, items, codec);
      FirstIsNew(prefix, attributes);
      RunAttribute(done, dn, prefix, a, first, codec);
      RunSplit(InEntry(done, dn, prefix), first, rest, codec);
      InheritsFirst(attributes);
      if IsInherited(a.0) {
        RunThrown(rest, codec);
      } else {
        assert prefix + [a] + more == prefix + attributes;
        RunAttributes(done, dn, prefix + [a], more, rest, codec);
      }
    }
  }

  lemma RunNoAttributes(s: State, items: seq<Line>, codec: Codec)
    requires Matches(items, AttributeLines([], codec))
    ensures Run(s, items, codec) == s && !Inherits([])
  {
  }

  lemma SplitAttributeItems(attributes: seq<Attribute>, items: seq<Line>, codec: Codec)
    returns (first: seq<Line>, rest: seq<Line>)
    requires attributes != [] && Matches(items, AttributeLines(attributes, codec))
    ensures items == first + rest && Matches(first, ValueLines(attributes[0].0, attributes[0].1, codec))
    ensures Matches(rest, AttributeLines(attributes[1..], codec))
  {
    var lines := ValueLines(attributes[0].0, attributes[0].1, codec);
    assert AttributeLines(attributes, codec) == lines + AttributeLines(attributes[1..], codec);
    hide AttributeLines, ValueLines, Matches;
    first, rest := MatchesSplit(items, lines, AttributeLines(attributes[1..], codec));
  }

  lemma FirstIsNew(prefix: seq<Attribute>, attributes: seq<Attribute>)
    requires DistinctNames(prefix + attributes) && attributes != []
    ensures forall i :: 0 <= i < |prefix| ==> prefix[i].0 != attributes[0].0
  {
    var all := prefix + attributes;
    forall i | 0 <= i < |prefix| ensures prefix[i].0 != attributes[0].0 {
      assert all[i] == prefix[i] && all[|prefix|] == attributes[0];
    }
  }

  lemma InheritsFirst(attributes: seq<Attribute>)
    requires attributes != []
    ensures Inherits(attributes) <==> IsInherited(attributes[0].0) || Inherits(attributes[1..])
  {
    if Inherits(attributes[1..]) {
      var i :| 0 <= i < |attributes| - 1 && IsInherited(attributes[1..][i].0);
      assert IsInherited(attributes[i + 1].0);
    }
    if Inherits(attributes) && !IsInherited(attributes[0].0) {
      var i :| 0 <= i < |attributes| && IsInherited(attributes[i].0);
      assert IsInherited(attributes[1..][i - 1].0);
    }
  }

  lemma DnIsName()
    ensures IsAttributeDescription("dn") && Lower("dn") == "dn" && Lower("dn") != "changetype"
  {
    NameIsAttribute("dn", Start);
  }

  lemma StepDn(done: seq<Entry>, item: Line, dn: string, codec: Codec)
    requires Lossless(codec) && item.text == AttributeLine("dn", dn, codec) && item.kind == KindOf(item.text)
    ensures Step(Reading(done, [], None, false), item, codec) == InEntry(done, dn, [])
  {
    DnIsName();
    WrittenLine("dn", dn, codec);
    WrittenShape("dn", dn, codec);
    DnIsNoVersion(dn, codec);
    hide ParseAttributeLine, AttributeLine, IsAttributeDescription, Lossless, Lower, IsVersionLine;
  }

  lemma DnIsNoVersion(dn: string, codec: Codec)
    ensures !IsVersionLine(AttributeLine("dn", dn, codec))
  {
    var line := AttributeLine("dn", dn, codec);
    assert line[0] == 'd';
    if |line| >= 7 {
      assert Lower(line[..7])[0] == 'd' && "version"[0] == 'v';
    }
  }

  predicate Writable(e: Entry) {
    Legal(e) && DistinctNames(e.attributes)
  }

  lemma SplitEntryItems(e: Entry, items: seq<Line>, codec: Codec) returns (first: Line, rest: seq<Line>)
    requires Matches(items, EntryLines(e, codec))
    ensures items == [first] + rest && Matches(rest, AttributeLines(e.attributes, codec))
    ensures first.text == AttributeLine("dn", e.dn, codec) && first.kind == KindOf(first.text)
  {
    hide AttributeLines, AttributeLine, KindOf;
    var dn, more := MatchesSplit(items, [AttributeLine("dn", e.dn, codec)], AttributeLines(e.attributes, codec));
    first, rest := dn[0], more;
    assert dn == [first];
  }

  lemma RunEntry(done: seq<Entry>, e: Entry, items: seq<Line>, codec: Codec)
    requires Writable(e) && Lossless(codec) && Matches(items, EntryLines(e, codec))
    ensures Run(Reading(done, [], None, false), items, codec)
      == if Inherits(e.attributes) then Thrown else Reading(done, [], Some(e), false)
  {
    assert InEntry(done, e.dn, e.attributes) == Reading(done, [], Some(e), false);
    assert [] + e.attributes == e.attributes;
    hide AttributeLines, AttributeLine, Step, Matches, Lossless, LegalAttribute, DistinctNames, InEntry, Inherits;
    var first, rest := SplitEntryItems(e, items, codec);
    StepDn(done, first, e.dn, codec);
    RunHead(Reading(done, [], None, false), first, rest, codec);
    RunAttributes(done, e.dn, [], e.attributes, rest, codec);
  }

  predicate AnyInherits(entries: seq<Entry>) {
    exists i :: 0 <= i < |entries| && Inherits(entries[i].attributes)
  }

  function Read(entry: Option<Entry>): seq<Entry> {
    match entry case None => [] case Some(e) => [e]
  }

  lemma SplitEntriesItems(entries: seq<Entry>, items: seq<Line>, codec: Codec) returns (blank: Line, rest: seq<Line>)
    requires entries != [] && Matches(items, EntriesLines(entries, true, codec))
    ensures items == [blank] + rest && blank.kind == Blank
    ensures Matches(rest, EntryLines(entries[0], codec) + EntriesLines(entries[1..], true, codec))
  {
    var later := EntryLines(entries[0], codec) + EntriesLines(entries[1..], true, codec);
    assert EntriesLines(entries, true, codec) == [""] + later;
    hide EntriesLines, EntryLines;
    var first, more := MatchesSplit(items, [""], later);
    blank, rest := first[0], more;
    assert first == [blank];
  }

  lemma StepBlank(s: State, blank: Line, codec: Codec)
    requires s.Reading? && blank.kind == Blank
    ensures Step(s, blank, codec) == Flush(s)
  {
  }

  lemma EntriesEnd(s: State, items: seq<Line>, codec: Codec)
    requires s.Reading? && !s.bad && Matches(items, EntriesLines([], true, codec))
    ensures Finish(Run(s, items, codec)) == Parsed(s.entries + Read(s.entry), s.errors)
    ensures Flush(s) == Reading(s.entries + Read(s.entry), s.errors, None, false)
  {
    assert items == [];
  }

  lemma FlushOpen(done: seq<Entry>, open: Option<Entry>)
    ensures Flush(Reading(done, [], open, false)) == Reading(done + Read(open), [], None, false)
  {
  }

  /** Entries parted by empty lines, after an entry that may still be open. */
  lemma {:induction false} RunEntries(done: seq<Entry>, open: Option<Entry>, entries: seq<Entry>, items: seq<Line>, codec: Codec)
    requires (forall e :: e in entries ==> Writable(e)) && Lossless(codec)
    requires Matches(items, EntriesLines(entries, true, codec))
    ensures Finish(Run(Reading(done, [], open, false), items, codec))
      == if AnyInherits(entries) then Threw else Parsed(done + Read(open) + entries, [])
    decreases |entries|
  {
    var s := Reading(done, [], open, false);
    if entries == [] {
      EntriesEnd(s, items, codec);
      assert done + Read(open) + entries == done + Read(open);
    } else {
      hide *;
      var blank, rest := SplitEntriesItems(entries, items, codec);
      RunHead(s, blank, rest, codec);
      StepBlank(s, blank, codec);
      FlushOpen(done, open);
      RunFirst(done + Read(open), entries, rest, codec);
    }
  }

  lemma RunFirst(done: seq<Entry>, entries: seq<Entry>, items: seq<Line>, codec: Codec)
    requires entries != [] && (forall e :: e in entries ==> Writable(e)) && Lossless(codec)
    requires Matches(items, EntryLines(entries[0], codec) + EntriesLines(entries[1..], true, codec))
    ensures Finish(Run(Reading(done, [], None, false), items, codec))
      == if AnyInherits(entries) then Threw else Parsed(done + entries, [])
    decreases |entries|, 0
  {
    var e, more := entries[0], entries[1..];
    assert e in entries && forall x :: x in more ==> x in entries;
    AnyFirst(entries);
    FinishThrown();
    ReadOpen(e);
    hide *;
    var first, rest := MatchesSplit(items, EntryLines(e, codec), EntriesLines(more, true, codec));
    RunEntry(done, e, first, codec);
    RunSplit(Reading(done, [], None, false), first, rest, codec);
    if Inherits(e.attributes) {
      RunThrown(rest, codec);
    } else {
      RunEntries(done, Some(e), more, rest, codec);
      assert entries == [e] + more;
      Assoc(done, [e], more);
    }
  }

  lemma FinishThrown()
    ensures Finish(Thrown) == Threw
  {
  }

  lemma ReadOpen(e: Entry)
    ensures Read(Some(e)) == [e]
  {
  }

  lemma AnyFirst(entries: seq<Entry>)
    requires entries != []
    ensures AnyInherits(entries) <==> Inherits(entries[0].attributes) || AnyInherits(entries[1..])
  {
    hide Inherits;
    if AnyInherits(entries[1..]) {
      var i :| 0 <= i < |entries| - 1 && Inherits(entries[1..][i].attributes);
      assert Inherits(entries[i + 1].attributes);
    }
    if AnyInherits(entries) && !Inherits(entries[0].attributes) {
      var i :| 0 <= i < |entries| && Inherits(entries[i].attributes);
      assert Inherits(entries[1..][i - 1].attributes);
    }
  }

  // --- The round trip -------------------------------------------------------------------

  lemma {:induction false} ValueLinesShape(name: string, values: seq<string>, codec: Codec)
    requires IsAttributeDescription(name) && Lossless(codec)
    ensures forall l :: l in ValueLines(name, values, codec) ==> Clean(l) && Anchored(l)
  {
    if values != [] {
      WrittenShape(name, values[0], codec);
      ValueLinesShape(name, values[1..], codec);
      hide AttributeLine, IsAttributeDescription, Lossless, Clean, Anchored;
    }
  }

  lemma {:induction false} AttributeLinesShape(attributes: seq<Attribute>, codec: Codec)
    requires (forall a :: a in attributes ==> LegalAttribute(a)) && Lossless(codec)
    ensures forall l :: l in AttributeLines(attributes, codec) ==> Clean(l) && Anchored(l)
  {
    if attributes != [] {
      assert attributes[0] in attributes && forall a :: a in attributes[1..] ==> a in attributes;
      ValueLinesShape(attributes[0].0, attributes[0].1, codec);
      AttributeLinesShape(attributes[1..], codec);
      hide IsAttributeDescription, Lossless, Clean, Anchored, ValueLines;
    }
  }

  lemma {:induction false} EntriesLinesShape(entries: seq<Entry>, separate: bool, codec: Codec)
    requires (forall e :: e in entries ==> Legal(e)) && Lossless(codec)
    ensures forall l :: l in EntriesLines(entries, separate, codec) ==> Clean(l) && Anchored(l)
  {
    if entries != [] {
      assert entries[0] in entries && forall e :: e in entries[1..] ==> e in entries;
      DnIsName();
      WrittenShape("dn", entries[0].dn, codec);
      AttributeLinesShape(entries[0].attributes, codec);
      EntriesLinesShape(entries[1..], true, codec);
      assert Clean("") && Anchored("");
      hide IsAttributeDescription, Lossless, Clean, Anchored, AttributeLines, AttributeLine;
    }
  }

  predicate CleanVersion(version: Option<string>) {
    version.Some? ==> Clean(version.value)
  }

  /** What the written text is split into: the version, then the folded lines of the entries. */
  lemma WrittenPhysical(entries: seq<Entry>, version: Option<string>, width: nat, codec: Codec)
    requires (forall e :: e in entries ==> Legal(e)) && Lossless(codec) && CleanVersion(version)
    requires entries != [] || version.Some?
    ensures PhysicalLines(SerializeEntries(entries, version, width, codec))
      == Header(version) + Flat(EntriesLines(entries, version.Some?, codec), width)
  {
    var lines := EntriesLines(entries, version.Some?, codec);
    var folded, flat := FoldAll(lines, width), Flat(lines, width);
    EntriesLinesShape(entries, version.Some?, codec);
    CleanFlat(lines, width);
    assert AllClean(Header(version));
    if lines == [] {
      assert Header(version) + [] == Header(version);
    } else {
      JoinFlat(lines, width);
    }
    hide EntriesLines, FoldAll, Flat, Clean, Lossless, PhysicalLines, Join;
    if version.Some? && lines != [] {
      JoinCons(Header(version)[0], folded);
      JoinCons(Header(version)[0], flat);
    } else if version.None? {
      assert [] + folded == folded && [] + flat == flat;
    }
    LinesOfJoin(Header(version) + flat);
  }

  lemma LowerVersion()
    ensures Lower("version") == "version"
  {
    var l := Lower("version");
    assert forall i :: 0 <= i < 7 ==> l[i] == "version"[i];
  }

  lemma VersionStep(v: string, start: nat, codec: Codec)
    ensures Step(INITIAL, Line("version: " + v, start, Content), codec) == INITIAL
  {
    hide ParseAttributeLine, StepPair, Lower;
    var text := "version: " + v;
    assert text[..7] == "version";
    assert text[7..][0] == ':';
    LowerVersion();
    assert IsVersionLine(text);
  }

  lemma NotEmpty(text: string, version: Option<string>, lines: seq<string>, width: nat)
    requires PhysicalLines(text) == Header(version) + Flat(lines, width)
    requires version.Some? || (lines != [] && lines[0] != "")
    ensures text != ""
  {
    if version.Some? {
      assert (Header(version) + Flat(lines, width))[0] == Header(version)[0] != "";
    } else {
      FirstPart(lines[0], width);
      var parts := FoldParts(lines[0], width);
      hide FoldParts;
      assert (Header(version) + Flat(lines, width)) == parts + Flat(lines[1..], width);
      assert (parts + Flat(lines[1..], width))[0] == parts[0];
    }
    assert PhysicalLines("") == [""];
  }

  lemma FirstPart(line: string, width: nat)
    requires line != ""
    ensures FoldParts(line, width)[0] != "" || |FoldParts(line, width)| > 1
  {
    if |line| > width {
      assert |Continuations(line[width..], ContentPerLine(width))| > 0;
    }
  }

  lemma ReadsVersioned(entries: seq<Entry>, v: string, width: nat, codec: Codec)
    requires (forall e :: e in entries ==> Writable(e)) && Lossless(codec) && width > 0
    requires forall l :: l in EntriesLines(entries, true, codec) ==> Anchored(l)
    ensures Finish(Run(INITIAL, Unfold(["version: " + v] + Flat(EntriesLines(entries, true, codec), width), 1, None), codec))
      == if AnyInherits(entries) then Threw else Parsed(entries, [])
  {
    var header := Line("version: " + v, 1, Content);
    var lines := EntriesLines(entries, true, codec);
    var flat := Flat(lines, width);
    assert (["version: " + v] + flat)[1..] == flat;
    assert Unfold(["version: " + v] + flat, 1, None) == Unfold(flat, 2, Some(header));
    assert Pending(Some(header)) == [header];
    VersionStep(v, 1, codec);
    assert INITIAL == Reading([], [], None, false) && Read(None) == [];
    hide *;
    var items := UnfoldFlat(lines, width, 2, Some(header));
    RunHead(INITIAL, header, items, codec);
    RunEntries([], None, entries, items, codec);
    assert [] + [] + entries == entries;
  }

  lemma ReadsUnversioned(entries: seq<Entry>, width: nat, codec: Codec)
    requires entries != [] && (forall e :: e in entries ==> Writable(e)) && Lossless(codec) && width > 0
    requires forall l :: l in EntriesLines(entries, false, codec) ==> Anchored(l)
    ensures Finish(Run(INITIAL, Unfold(Flat(EntriesLines(entries, false, codec), width), 1, None), codec))
      == if AnyInherits(entries) then Threw else Parsed(entries, [])
  {
    var lines := EntriesLines(entries, false, codec);
    var later := EntriesLines(entries[1..], true, codec);
    assert lines == EntryLines(entries[0], codec) + later by {
      assert [] + EntryLines(entries[0], codec) == EntryLines(entries[0], codec);
    }
    assert INITIAL == Reading([], [], None, false) && Pending(None) == [];
    hide *;
    var items := UnfoldFlat(lines, width, 1, None);
    assert [] + items == items;
    RunFirst([], entries, items, codec);
    assert [] + entries == entries;
  }

  /** What is read back from entries with legal names: the entries, unless a name is inherited. */
  lemma WrittenIsRead(entries: seq<Entry>, version: Option<string>, width: nat, codec: Codec)
    requires (forall e :: e in entries ==> Writable(e)) && Lossless(codec) && CleanVersion(version) && width > 0
    ensures ParseLdif(SerializeEntries(entries, version, width, codec), codec)
      == if AnyInherits(entries) then Threw else Parsed(entries, [])
  {
    var text := SerializeEntries(entries, version, width, codec);
    var lines := EntriesLines(entries, version.Some?, codec);
    if entries == [] && version.None? {
      assert text == "";
    } else {
      WrittenPhysical(entries, version, width, codec);
      EntriesLinesShape(entries, version.Some?, codec);
      if version.None? {
        assert lines[0] == AttributeLine("dn", entries[0].dn, codec) && lines[0] != "";
      }
      NotEmpty(text, version, lines, width);
      hide PhysicalLines, SerializeEntries, Clean, Anchored, Lossless, Writable, Inherits, Legal, DistinctNames, Flat, Unfold,
        EntriesLines, Run, AnyInherits;
      if version.Some? {
        ReadsVersioned(entries, version.value, width, codec);
      } else {
        ReadsUnversioned(entries, width, codec);
        assert [] + Flat(lines, width) == Flat(lines, width);
      }
    }
  }

  // --- Only such entries are ever read --------------------------------------------------

  /** An entry that survives being written and read. */
  predicate Good(e: Entry) {
    Legal(e) && !Inherits(e.attributes)
  }

  predicate AllGood(s: State) {
    s.Reading? ==> (forall e :: e in s.entries ==> Good(e) && DistinctNames(e.attributes))
                   && (s.entry.Some? ==> Good(s.entry.value) && DistinctNames(s.entry.value.attributes))
  }

  lemma AddGood(e: Entry, name: string, value: string)
    requires Good(e) && DistinctNames(e.attributes)
    requires IsAttributeDescription(name) && Lower(name) != "dn" && Lower(name) != "changetype" && !IsInherited(name)
    ensures var e' := e.(attributes := AddValue(e.attributes, name, value));
            Good(e') && DistinctNames(e'.attributes)
  {
    hide IsAttributeDescription, Lower, IsInherited;
    var e' := e.(attributes := AddValue(e.attributes, name, value));
    var i := Find(e.attributes, name);
    if i < |e.attributes| {
      assert forall k :: 0 <= k < |e.attributes| ==> e'.attributes[k].0 == e.attributes[k].0;
      assert e.attributes[i] in e.attributes;
    }
  }

  lemma ParsedName(line: string, codec: Codec)
    ensures ParseAttributeLine(line, codec).Pair? ==> IsAttributeDescription(ParseAttributeLine(line, codec).name)
  {
  }

  lemma StepGood(s: State, item: Line, codec: Codec)
    requires AllGood(s)
    ensures AllGood(Step(s, item, codec))
  {
    ParsedName(item.text, codec);
    var parsed := ParseAttributeLine(item.text, codec);
    hide ParseAttributeLine, IsAttributeDescription, Lower, AddValue, IsInherited, IsVersionLine, Good, DistinctNames;
    if s.Reading? && s.entry.Some? && parsed.Pair? && Lower(parsed.name) != "dn" && Lower(parsed.name) != "changetype"
      && !IsInherited(parsed.name) {
      AddGood(s.entry.value, parsed.name, parsed.value);
    }
    if parsed.Pair? {
      EmptyGood(parsed.value);
    }
  }

  lemma EmptyGood(dn: string)
    ensures Good(Entry(dn, [])) && DistinctNames([])
  {
  }

  lemma {:induction false} RunGood(s: State, items: seq<Line>, codec: Codec)
    requires AllGood(s)
    ensures AllGood(Run(s, items, codec))
    decreases |items|
  {
    hide Step, AllGood;
    if items != [] {
      StepGood(s, items[0], codec);
      RunGood(Step(s, items[0], codec), items[1..], codec);
    }
  }

  /** Whatever the text, the entries read from it have legal names, each once, with values. */
  lemma ReadIsGood(text: string, codec: Codec)
    requires ParseLdif(text, codec).Parsed?
    ensures forall e :: e in ParseLdif(text, codec).entries ==> Good(e) && DistinctNames(e.attributes)
  {
    var items := Unfold(PhysicalLines(text), 1, None);
    RunGood(INITIAL, items, codec);
    hide Good, DistinctNames, Run, Unfold, PhysicalLines;
  }

  lemma GoodIsWritable(entries: seq<Entry>)
    requires forall e :: e in entries ==> Good(e) && DistinctNames(e.attributes)
    ensures !AnyInherits(entries) && forall e :: e in entries ==> Writable(e)
  {
    hide Legal, Inherits, DistinctNames;
    forall i | 0 <= i < |entries| ensures !Inherits(entries[i].attributes) {
      assert entries[i] in entries;
    }
  }

  /** The round trip, at every width and with any version line: entries come back as they were,
      in order and without errors, exactly when their names are legal, are not dn, changetype or
      a member of Object.prototype, and every attribute has a value. */
  lemma RoundTrip(entries: seq<Entry>, version: Option<string>, width: nat, codec: Codec)
    requires (forall e :: e in entries ==> DistinctNames(e.attributes)) && Lossless(codec) && CleanVersion(version) && width > 0
    ensures ParseLdif(SerializeEntries(entries, version, width, codec), codec) == Parsed(entries, [])
      <==> forall e :: e in entries ==> Good(e)
  {
    hide ParseLdif, SerializeEntries, Good, Inherits, AnyInherits, Writable, DistinctNames, Lossless, CleanVersion;
    var outcome := ParseLdif(SerializeEntries(entries, version, width, codec), codec);
    if outcome == Parsed(entries, []) {
      ReadIsGood(SerializeEntries(entries, version, width, codec), codec);
    }
    if forall e :: e in entries ==> Good(e) {
      GoodIsWritable(entries);
      WrittenIsRead(entries, version, width, codec);
    }
  }

  lemma ConstructorIsLegal()
    ensures LegalAttribute(("constructor", ["x"])) && IsInherited("constructor")
  {
    NameIsAttribute("constructor", Start);
    assert Lower("constructor")[0] == 'c' && Lower("constructor")[1] == 'o' && "changetype"[1] == 'h' && "dn"[0] == 'd';
    assert INHERITED[0] == "constructor";
  }

  /** The smallest entry that cannot be read back: its attribute is called "constructor". */
  lemma ConstructorThrows(codec: Codec, width: nat)
    requires Lossless(codec) && width > 0
    ensures ParseLdif(SerializeEntries([Entry("cn=a", [("constructor", ["x"])])], None, width, codec), codec) == Threw
  {
    var a := ("constructor", ["x"]);
    var e := Entry("cn=a", [a]);
    ConstructorIsLegal();
    hide ParseLdif, SerializeEntries, LegalAttribute, IsInherited, Lossless;
    assert Writable(e);
    assert e.attributes[0] == a && Inherits(e.attributes);
    assert [e][0] == e && AnyInherits([e]);
    WrittenIsRead([e], None, width, codec);
  }
}
