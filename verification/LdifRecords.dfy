/**
 What the parser of frontend/src/lib/ldif.ts makes of arbitrary text, record by record: a record runs
 from a dn line to the next empty or dn line, each faulty line is reported once, and a record with a
 faulty line yields no entry.
 */
module LdifRecords {
  import opened Wrappers
  import opened Text
  import opened Ldif

  // --- Lines by themselves ------------------------------------------------------------------

  function ReadAt(lines: seq<Line>, i: nat, codec: Codec): LineResult
    requires i < |lines|
  {
    ParseAttributeLine(lines[i].text, codec)
  }

  predicate Named(lines: seq<Line>, i: nat, codec: Codec, name: string)
    requires i < |lines|
  {
    lines[i].kind == Content && ReadAt(lines, i, codec).Pair? && Lower(ReadAt(lines, i, codec).name) == name
  }

  predicate IsDn(lines: seq<Line>, i: nat, codec: Codec)
    requires i < |lines|
  {
    Named(lines, i, codec, "dn")
  }

  /** A line that gives an attribute a value. */
  predicate IsValue(lines: seq<Line>, i: nat, codec: Codec)
    requires i < |lines|
  {
    lines[i].kind == Content && ReadAt(lines, i, codec).Pair?
    && !Named(lines, i, codec, "dn") && !Named(lines, i, codec, "changetype")
  }

  /** Where a record stops: an empty line, or the dn of the next. */
  predicate Stops(lines: seq<Line>, i: nat, codec: Codec)
    requires i < |lines|
  {
    lines[i].kind == Blank || IsDn(lines, i, codec)
  }

  // --- Records ------------------------------------------------------------------------------

  /** The dn line of the record that line i would belong to. */
  function Head(lines: seq<Line>, i: nat, codec: Codec): (d: Option<nat>)
    requires i <= |lines|
    ensures d.Some? ==> d.value < i && IsDn(lines, d.value, codec) && forall k :: d.value < k < i ==> !Stops(lines, k, codec)
    ensures d.None? ==> forall k :: 0 <= k < i && IsDn(lines, k, codec) ==> exists j :: k < j < i && lines[j].kind == Blank
  {
    if i == 0 || lines[i - 1].kind == Blank then None
    else if IsDn(lines, i - 1, codec) then Some(i - 1)
    else Head(lines, i - 1, codec)
  }

  /** The first line behind the record of the dn line d. */
  function EndOf(lines: seq<Line>, d: nat, codec: Codec): (e: nat)
    requires d < |lines|
    ensures d < e <= |lines| && forall k :: d < k < e ==> !Stops(lines, k, codec)
    ensures e < |lines| ==> Stops(lines, e, codec)
    decreases |lines| - d
  {
    FirstStop(lines, d + 1, codec)
  }

  function FirstStop(lines: seq<Line>, i: nat, codec: Codec): (e: nat)
    requires i <= |lines|
    ensures i <= e <= |lines| && forall k :: i <= k < e ==> !Stops(lines, k, codec)
    ensures e < |lines| ==> Stops(lines, e, codec)
    decreases |lines| - i
  {
    if i == |lines| || Stops(lines, i, codec) then i else FirstStop(lines, i + 1, codec)
  }

  /** What is wrong with a line, if anything. Outside a record a version line is let through, and an
      attribute is not. */
  function ProblemAt(lines: seq<Line>, i: nat, codec: Codec): Option<Problem>
    requires i < |lines|
  {
    var outside := Head(lines, i, codec).None?;
    if lines[i].kind != Content || (outside && IsVersionLine(lines[i].text)) then None
    else
      match ReadAt(lines, i, codec)
      case Undecodable => Some(BadBase64)
      case NotALine => Some(Malformed(lines[i].text))
      case Pair(name, _) =>
        if Named(lines, i, codec, "changetype") then Some(ChangeType)
        else if outside && IsValue(lines, i, codec) then Some(BeforeDn(name))
        else None
  }

  /** One error for each line with a problem, in the order of the lines, with its number. */
  function ErrorsOf(lines: seq<Line>, stop: nat, codec: Codec): seq<ParseError>
    requires stop <= |lines|
  {
    if stop == 0 then []
    else
      ErrorsOf(lines, stop - 1, codec)
      + match ProblemAt(lines, stop - 1, codec)
        case None => []
        case Some(problem) => [ParseError(lines[stop - 1].start, problem)]
  }

  /** The names given values between a dn line and line to, in the order of their first values. */
  function NamesOf(lines: seq<Line>, d: nat, stop: nat, codec: Codec): (names: seq<string>)
    requires d < stop <= |lines|
    ensures forall i, j :: 0 <= i < j < |names| ==> names[i] != names[j]
    decreases stop
  {
    if stop == d + 1 then []
    else
      var before := NamesOf(lines, d, stop - 1, codec);
      if IsValue(lines, stop - 1, codec) && ReadAt(lines, stop - 1, codec).name !in before
      then before + [ReadAt(lines, stop - 1, codec).name] else before
  }

  /** The values given to a name between a dn line and line to, in the order of the lines. */
  function ValuesOf(lines: seq<Line>, d: nat, stop: nat, name: string, codec: Codec): seq<string>
    requires d < stop <= |lines|
    decreases stop
  {
    if stop == d + 1 then []
    else
      ValuesOf(lines, d, stop - 1, name, codec)
      + if IsValue(lines, stop - 1, codec) && ReadAt(lines, stop - 1, codec).name == name
        then [ReadAt(lines, stop - 1, codec).value] else []
  }

  function AttributesOf(lines: seq<Line>, d: nat, stop: nat, codec: Codec): (attributes: seq<Attribute>)
    requires d < stop <= |lines|
    ensures |attributes| == |NamesOf(lines, d, stop, codec)|
    ensures forall i :: 0 <= i < |attributes| ==>
              attributes[i] == (NamesOf(lines, d, stop, codec)[i], ValuesOf(lines, d, stop, NamesOf(lines, d, stop,
                codec)[i], codec))
  {
    var names := NamesOf(lines, d, stop, codec);
    seq(|names|, i requires 0 <= i < |names| => (names[i], ValuesOf(lines, d, stop, names[i], codec)))
  }

  predicate Faulty(lines: seq<Line>, d: nat, stop: nat, codec: Codec)
    requires d < stop <= |lines|
  {
    exists k :: d < k < stop && ProblemAt(lines, k, codec).Some?
  }

  /** What a record contributes: its entry, or nothing when one of its lines is faulty. */
  function Contribution(lines: seq<Line>, d: nat, stop: nat, codec: Codec): seq<Entry>
    requires d < stop <= |lines| && IsDn(lines, d, codec)
  {
    if Faulty(lines, d, stop, codec) then []
    else [Entry(ReadAt(lines, d, codec).value, AttributesOf(lines, d, stop, codec))]
  }

  /** The contributions of the records that begin before line to. */
  function EntriesOf(lines: seq<Line>, stop: nat, codec: Codec): seq<Entry>
    requires stop <= |lines|
  {
    if stop == 0 then []
    else
      EntriesOf(lines, stop - 1, codec)
      + if IsDn(lines, stop - 1, codec) then Contribution(lines, stop - 1, EndOf(lines, stop - 1, codec), codec) else []
  }

  /** An attribute of a record that every object inherits a member for. */
  predicate ThrowsAt(lines: seq<Line>, i: nat, codec: Codec)
    requires i < |lines|
  {
    Head(lines, i, codec).Some? && IsValue(lines, i, codec) && IsInherited(ReadAt(lines, i, codec).name)
  }

  predicate ThrowsBefore(lines: seq<Line>, stop: nat, codec: Codec)
    requires stop <= |lines|
  {
    exists i :: 0 <= i < stop && ThrowsAt(lines, i, codec)
  }

  // --- The parser after some lines ------------------------------------------------------------

  /** The open record and the entries before it. */
  predicate AfterLines(s: State, lines: seq<Line>, i: nat, codec: Codec)
    requires i <= |lines|
  {
    if ThrowsBefore(lines, i, codec) then s == Thrown
    else
      && s.Reading? && s.errors == ErrorsOf(lines, i, codec)
      && match Head(lines, i, codec)
         case None => s.entry == None && s.entries == EntriesOf(lines, i, codec)
         case Some(d) =>
           && s.entry == Some(Entry(ReadAt(lines, d, codec).value, AttributesOf(lines, d, i, codec)))
           && (s.bad <==> Faulty(lines, d, i, codec))
           && s.entries == EntriesOf(lines, d, codec)
  }

  lemma ThrowsNext(lines: seq<Line>, i: nat, codec: Codec)
    requires i < |lines|
    ensures ThrowsBefore(lines, i + 1, codec) <==> ThrowsBefore(lines, i, codec) || ThrowsAt(lines, i, codec)
  {
    hide ThrowsAt;
  }

  lemma FaultyNext(lines: seq<Line>, d: nat, i: nat, codec: Codec)
    requires d < i < |lines|
    ensures Faulty(lines, d, i + 1, codec) <==> Faulty(lines, d, i, codec) || ProblemAt(lines, i, codec).Some?
  {
    hide ProblemAt;
  }

  /** A record ends at the first line that stops it. */
  lemma EndIs(lines: seq<Line>, d: nat, i: nat, codec: Codec)
    requires d < i < |lines| && Stops(lines, i, codec) && forall k :: d < k < i ==> !Stops(lines, k, codec)
    ensures EndOf(lines, d, codec) == i
  {
    hide Stops;
  }

  /** Until it ends, a record is the last one. */
  lemma {:induction false} LastRecord(lines: seq<Line>, d: nat, i: nat, codec: Codec)
    requires d < i <= |lines| && IsDn(lines, d, codec) && forall k :: d < k < i ==> !Stops(lines, k, codec)
    ensures EntriesOf(lines, i, codec) == EntriesOf(lines, d, codec) + Contribution(lines, d, EndOf(lines, d, codec), codec)
  {
    hide Contribution, EndOf;
    if i > d + 1 {
      LastRecord(lines, d, i - 1, codec);
      assert !Stops(lines, i - 1, codec);
    }
    hide IsDn;
  }

  // --- One value more -------------------------------------------------------------------------

  lemma {:induction false} ValuesOfOthers(lines: seq<Line>, d: nat, stop: nat, name: string, codec: Codec)
    requires d < stop <= |lines| && name !in NamesOf(lines, d, stop, codec)
    ensures ValuesOf(lines, d, stop, name, codec) == []
    decreases stop
  {
    hide IsValue, ReadAt;
    if stop > d + 1 {
      ValuesOfOthers(lines, d, stop - 1, name, codec);
    }
  }

  lemma NoAttributes(lines: seq<Line>, d: nat, codec: Codec)
    requires d < |lines|
    ensures AttributesOf(lines, d, d + 1, codec) == []
  {
  }

  lemma SameAttributes(lines: seq<Line>, d: nat, i: nat, codec: Codec)
    requires d < i < |lines| && !IsValue(lines, i, codec)
    ensures AttributesOf(lines, d, i + 1, codec) == AttributesOf(lines, d, i, codec)
  {
    hide IsValue, ReadAt;
    assert NamesOf(lines, d, i + 1, codec) == NamesOf(lines, d, i, codec);
    var a, b := AttributesOf(lines, d, i, codec), AttributesOf(lines, d, i + 1, codec);
    forall k | 0 <= k < |a| ensures a[k] == b[k] {
      var name := NamesOf(lines, d, i, codec)[k];
      assert ValuesOf(lines, d, i + 1, name, codec) == ValuesOf(lines, d, i, name, codec) + [] == ValuesOf(lines, d, i,
        name, codec);
    }
  }

  lemma ValuesNext(lines: seq<Line>, d: nat, i: nat, name: string, codec: Codec)
    requires d < i < |lines| && IsValue(lines, i, codec)
    ensures ValuesOf(lines, d, i + 1, name, codec)
      == if ReadAt(lines, i, codec).name == name then ValuesOf(lines, d, i, name, codec) + [ReadAt(lines, i, codec).value]
         else ValuesOf(lines, d, i, name, codec)
  {
    hide IsValue, ReadAt;
    assert ValuesOf(lines, d, i, name, codec) + [] == ValuesOf(lines, d, i, name, codec);
  }

  lemma AttributesNext(lines: seq<Line>, d: nat, i: nat, codec: Codec, k: nat)
    requires d < i < |lines| && IsValue(lines, i, codec) && k < |NamesOf(lines, d, i + 1, codec)|
    ensures var name, value := ReadAt(lines, i, codec).name, ReadAt(lines, i, codec).value;
            var names := NamesOf(lines, d, i, codec);
            && NamesOf(lines, d, i + 1, codec) == (if name in names then names else names + [name])
            && AttributesOf(lines, d, i + 1, codec)[k]
               == if k == |names| then (name, [value])
                  else if names[k] == name then (name, AttributesOf(lines, d, i, codec)[k].1 + [value])
                  else AttributesOf(lines, d, i, codec)[k]
  {
    var name, names := ReadAt(lines, i, codec).name, NamesOf(lines, d, i, codec);
    hide IsValue, ReadAt, ValuesOf;
    assert NamesOf(lines, d, i + 1, codec) == if name in names then names else names + [name];
    var x := NamesOf(lines, d, i + 1, codec)[k];
    ValuesNext(lines, d, i, x, codec);
    if k == |names| {
      assert x == name;
      ValuesOfOthers(lines, d, i, name, codec);
      assert [] + [ReadAt(lines, i, codec).value] == [ReadAt(lines, i, codec).value];
    }
  }

  /** The value joins the others of its name, or the name comes last. */
  lemma OneMoreValue(lines: seq<Line>, d: nat, i: nat, codec: Codec)
    requires d < i < |lines| && IsValue(lines, i, codec)
    ensures AttributesOf(lines, d, i + 1, codec)
      == AddValue(AttributesOf(lines, d, i, codec), ReadAt(lines, i, codec).name, ReadAt(lines, i, codec).value)
  {
    var name, value := ReadAt(lines, i, codec).name, ReadAt(lines, i, codec).value;
    var before, names := AttributesOf(lines, d, i, codec), NamesOf(lines, d, i, codec);
    var next := AttributesOf(lines, d, i + 1, codec);
    assert forall k :: 0 <= k < |before| ==> before[k].0 == names[k];
    hide IsValue, ReadAt, NamesOf, ValuesOf, AttributesOf;
    forall k | 0 <= k < |next|
      ensures next[k] == if k == |names| then (name, [value])
                         else if names[k] == name then (name, before[k].1 + [value]) else before[k]
    {
      AttributesNext(lines, d, i, codec, k);
    }
    LengthNext(lines, d, i, codec);
    Placed(before, names, name, value, next);
  }

  lemma LengthNext(lines: seq<Line>, d: nat, i: nat, codec: Codec)
    requires d < i < |lines| && IsValue(lines, i, codec)
    ensures |AttributesOf(lines, d, i + 1, codec)|
      == |NamesOf(lines, d, i, codec)| + if ReadAt(lines, i, codec).name in NamesOf(lines, d, i, codec) then 0 else 1
  {
    hide IsValue, ReadAt, ValuesOf;
  }

  lemma Placed(before: seq<Attribute>, names: seq<string>, name: string, value: string, next: seq<Attribute>)
    requires |before| == |names| && forall k :: 0 <= k < |before| ==> before[k].0 == names[k]
    requires forall i, j :: 0 <= i < j < |names| ==> names[i] != names[j]
    requires |next| == |names| + if name in names then 0 else 1
    requires forall k :: 0 <= k < |next| ==>
               next[k] == if k == |names| then (name, [value])
                          else if names[k] == name then (name, before[k].1 + [value]) else before[k]
    ensures next == AddValue(before, name, value)
  {
    var i := Find(before, name);
    if i < |before| {
      assert names[i] == name;
      assert next == before[i := (name, before[i].1 + [value])];
    } else {
      assert name !in names;
      assert next == before + [(name, [value])];
    }
  }

  // --- One line more --------------------------------------------------------------------------

  lemma DnIsNoVersion(text: string, codec: Codec)
    requires ParseAttributeLine(text, codec).Pair? && Lower(ParseAttributeLine(text, codec).name) == "dn"
    ensures !IsVersionLine(text)
  {
    var colon := IndexOf(text, ':');
    assert Lower(text[..colon])[0] == LowerChar(text[0]) == 'd';
    if |text| >= 7 {
      assert Lower(text[..7])[0] == LowerChar(text[0]);
      assert "version"[0] == 'v';
    }
  }

  lemma HeadNext(lines: seq<Line>, i: nat, codec: Codec)
    requires i < |lines|
    ensures Head(lines, i + 1, codec) == if lines[i].kind == Blank then None
                                         else if IsDn(lines, i, codec) then Some(i) else Head(lines, i, codec)
  {
    hide IsDn;
  }

  lemma ErrorsNext(lines: seq<Line>, i: nat, codec: Codec)
    requires i < |lines|
    ensures ErrorsOf(lines, i + 1, codec)
      == ErrorsOf(lines, i, codec) + match ProblemAt(lines, i, codec)
                                     case None => []
                                     case Some(problem) => [ParseError(lines[i].start, problem)]
  {
    hide ProblemAt;
  }

  lemma EntriesNext(lines: seq<Line>, i: nat, codec: Codec)
    requires i < |lines| && !IsDn(lines, i, codec)
    ensures EntriesOf(lines, i + 1, codec) == EntriesOf(lines, i, codec)
  {
    hide IsDn, Contribution;
    assert EntriesOf(lines, i, codec) + [] == EntriesOf(lines, i, codec);
  }

  /** A line that does not stop a record leaves its dn and the earlier entries alone. */
  lemma Inside(s: State, s': State, lines: seq<Line>, i: nat, codec: Codec)
    requires i < |lines| && AfterLines(s, lines, i, codec) && s.Reading? && !Stops(lines, i, codec)
    requires !ThrowsAt(lines, i, codec) && !ThrowsBefore(lines, i, codec) && s'.Reading? && s'.entries == s.entries
    requires s'.errors == s.errors + match ProblemAt(lines, i, codec)
                                     case None => []
                                     case Some(problem) => [ParseError(lines[i].start, problem)]
    requires s'.entry == if s.entry.Some? && IsValue(lines, i, codec)
                         then Some(s.entry.value.(attributes := AddValue(s.entry.value.attributes, ReadAt(lines, i, codec).name,
                                                                         ReadAt(lines, i, codec).value)))
                         else s.entry
    requires s'.bad <==> s.bad || ProblemAt(lines, i, codec).Some?
    ensures AfterLines(s', lines, i + 1, codec)
  {
    hide ThrowsAt, ThrowsBefore, ProblemAt, IsDn, IsValue, ReadAt, Faulty, AttributesOf, EntriesOf, Head, ErrorsOf, AddValue;
    ThrowsNext(lines, i, codec);
    HeadNext(lines, i, codec);
    ErrorsNext(lines, i, codec);
    match Head(lines, i, codec) {
      case None => EntriesNext(lines, i, codec);
      case Some(d) =>
        FaultyNext(lines, d, i, codec);
        if IsValue(lines, i, codec) {
          OneMoreValue(lines, d, i, codec);
        } else {
          SameAttributes(lines, d, i, codec);
        }
    }
  }

  /** What is written down when the open record ends here. */
  lemma Flushed(s: State, lines: seq<Line>, i: nat, codec: Codec)
    requires i < |lines| && AfterLines(s, lines, i, codec) && !ThrowsBefore(lines, i, codec) && Stops(lines, i, codec)
    ensures s.Reading? && Flush(s).entries == EntriesOf(lines, i, codec)
    ensures s.entry.None? ==> s.entries == EntriesOf(lines, i, codec)
  {
    hide ThrowsBefore, Stops, IsDn, Faulty, AttributesOf, EntriesOf, ErrorsOf;
    match Head(lines, i, codec) {
      case None =>
      case Some(d) =>
        EndIs(lines, d, i, codec);
        LastRecord(lines, d, i, codec);
        assert EntriesOf(lines, d, codec) + [] == EntriesOf(lines, d, codec);
    }
  }

  lemma StepBlankLine(s: State, lines: seq<Line>, i: nat, codec: Codec)
    requires i < |lines| && AfterLines(s, lines, i, codec) && !ThrowsBefore(lines, i, codec) && lines[i].kind == Blank
    ensures AfterLines(Step(s, lines[i], codec), lines, i + 1, codec)
  {
    Flushed(s, lines, i, codec);
    ThrowsNext(lines, i, codec);
    HeadNext(lines, i, codec);
    ErrorsNext(lines, i, codec);
    EntriesNext(lines, i, codec);
    assert ErrorsOf(lines, i, codec) + [] == ErrorsOf(lines, i, codec);
    hide ThrowsBefore, Head, EntriesOf, ErrorsOf, Faulty, AttributesOf;
  }

  lemma StepDnLine(s: State, lines: seq<Line>, i: nat, codec: Codec)
    requires i < |lines| && AfterLines(s, lines, i, codec) && !ThrowsBefore(lines, i, codec) && IsDn(lines, i, codec)
    ensures AfterLines(Step(s, lines[i], codec), lines, i + 1, codec)
  {
    Flushed(s, lines, i, codec);
    ThrowsNext(lines, i, codec);
    HeadNext(lines, i, codec);
    ErrorsNext(lines, i, codec);
    NoAttributes(lines, i, codec);
    DnIsNoVersion(lines[i].text, codec);
    assert !Faulty(lines, i, i + 1, codec);
    assert ErrorsOf(lines, i, codec) + [] == ErrorsOf(lines, i, codec);
    assert "dn" != "changetype";
    hide ThrowsBefore, Head, EntriesOf, ErrorsOf, Faulty, AttributesOf, IsVersionLine, ParseAttributeLine;
  }

  lemma StepThrows(s: State, lines: seq<Line>, i: nat, codec: Codec)
    requires i < |lines| && AfterLines(s, lines, i, codec) && !ThrowsBefore(lines, i, codec) && ThrowsAt(lines, i, codec)
    ensures Step(s, lines[i], codec) == Thrown
  {
    hide ThrowsBefore, Head, EntriesOf, ErrorsOf, Faulty, AttributesOf, IsVersionLine, ParseAttributeLine, IsInherited;
  }

  lemma StepInside(s: State, lines: seq<Line>, i: nat, codec: Codec)
    requires i < |lines| && AfterLines(s, lines, i, codec) && !ThrowsBefore(lines, i, codec)
    requires !ThrowsAt(lines, i, codec) && !Stops(lines, i, codec)
    ensures s.Reading? && AfterLines(Step(s, lines[i], codec), lines, i + 1, codec)
  {
    var s' := Step(s, lines[i], codec);
    assert s.Reading? && (s.entry.None? <==> Head(lines, i, codec).None?) by {
      hide ThrowsBefore, EntriesOf, ErrorsOf, Faulty, AttributesOf, Head;
    }
    assert s'.Reading? && s'.entries == s.entries
      && s'.errors == s.errors + (match ProblemAt(lines, i, codec)
                                  case None => []
                                  case Some(problem) => [ParseError(lines[i].start, problem)])
      && s'.entry == (if s.entry.Some? && IsValue(lines, i, codec)
                      then Some(s.entry.value.(attributes := AddValue(s.entry.value.attributes, ReadAt(lines, i, codec).name,
                                                                      ReadAt(lines, i, codec).value)))
                      else s.entry)
      && (s'.bad <==> s.bad || ProblemAt(lines, i, codec).Some?) by {
      hide ThrowsBefore, EntriesOf, ErrorsOf, Faulty, AttributesOf, Head, AfterLines, ParseAttributeLine, IsVersionLine,
        AddValue, IsInherited;
      assert s.errors + [] == s.errors;
    }
    hide *;
    Inside(s, s', lines, i, codec);
  }

  lemma StepLine(s: State, lines: seq<Line>, i: nat, codec: Codec)
    requires i < |lines| && AfterLines(s, lines, i, codec)
    ensures AfterLines(Step(s, lines[i], codec), lines, i + 1, codec)
  {
    ThrowsNext(lines, i, codec);
    if ThrowsBefore(lines, i, codec) {
      hide ThrowsBefore, ThrowsAt;
      assert Step(s, lines[i], codec) == s;
    } else if ThrowsAt(lines, i, codec) {
      StepThrows(s, lines, i, codec);
      hide ThrowsBefore, ThrowsAt, Step;
    } else if lines[i].kind == Blank {
      hide *;
      StepBlankLine(s, lines, i, codec);
    } else if IsDn(lines, i, codec) {
      hide *;
      StepDnLine(s, lines, i, codec);
    } else {
      hide ThrowsAt, ThrowsBefore, AfterLines, Step, IsDn;
      StepInside(s, lines, i, codec);
    }
  }

  lemma {:induction false} RunLines(s: State, lines: seq<Line>, i: nat, codec: Codec)
    requires i <= |lines| && AfterLines(s, lines, i, codec)
    ensures AfterLines(Run(s, lines[i..], codec), lines, |lines|, codec)
    decreases |lines| - i
  {
    hide AfterLines, Step;
    if i < |lines| {
      assert lines[i..][0] == lines[i] && lines[i..][1..] == lines[i + 1..];
      StepLine(s, lines, i, codec);
      RunLines(Step(s, lines[i], codec), lines, i + 1, codec);
    }
  }

  /** With the last line the last record ends. */
  lemma Finished(s: State, lines: seq<Line>, codec: Codec)
    requires AfterLines(s, lines, |lines|, codec)
    ensures Finish(s) == if ThrowsBefore(lines, |lines|, codec) then Threw
                         else Parsed(EntriesOf(lines, |lines|, codec), ErrorsOf(lines, |lines|, codec))
  {
    hide ThrowsBefore, Stops, IsDn, Faulty, AttributesOf, EntriesOf, ErrorsOf;
    if !ThrowsBefore(lines, |lines|, codec) {
      match Head(lines, |lines|, codec) {
        case None =>
        case Some(d) =>
          LastEnd(lines, d, codec);
          LastRecord(lines, d, |lines|, codec);
          assert EntriesOf(lines, d, codec) + [] == EntriesOf(lines, d, codec);
      }
    }
  }

  lemma LastEnd(lines: seq<Line>, d: nat, codec: Codec)
    requires d < |lines| && forall k :: d < k < |lines| ==> !Stops(lines, k, codec)
    ensures EndOf(lines, d, codec) == |lines|
  {
    hide Stops;
  }

  lemma NothingRead(lines: seq<Line>, codec: Codec)
    ensures AfterLines(INITIAL, lines, 0, codec)
  {
  }

  /** What the lines amount to. */
  function RecordsOf(lines: seq<Line>, codec: Codec): Outcome {
    if ThrowsBefore(lines, |lines|, codec) then Threw
    else Parsed(EntriesOf(lines, |lines|, codec), ErrorsOf(lines, |lines|, codec))
  }

  lemma LinesRead(lines: seq<Line>, codec: Codec)
    ensures Finish(Run(INITIAL, lines, codec)) == RecordsOf(lines, codec)
  {
    hide Run, Finish, AfterLines, ThrowsBefore, EntriesOf, ErrorsOf;
    NothingRead(lines, codec);
    RunLines(INITIAL, lines, 0, codec);
    assert lines[0..] == lines;
    Finished(Run(INITIAL, lines, codec), lines, codec);
  }

  /**
   Whatever the text, the parser reports each faulty line once, with its number, and yields the entries
   of the records without one, in order, with each name's values in the order of the lines; unless a
   record gives a value to a name that every object inherits, which makes it throw.
   */
  lemma ReadsRecords(text: string, codec: Codec)
    ensures ParseLdif(text, codec) == RecordsOf(Unfold(PhysicalLines(text), 1, None), codec)
  {
    hide Unfold, PhysicalLines, Run, Finish, ThrowsBefore, EntriesOf, ErrorsOf;
    if text == "" {
      BlankText(codec);
    } else {
      LinesRead(Unfold(PhysicalLines(text), 1, None), codec);
    }
  }

  /** A malformed or undecodable line, or one with a changetype, takes its record away. */
  lemma FaultyRecordsYieldNothing(lines: seq<Line>, d: nat, k: nat, codec: Codec)
    requires d < |lines| && IsDn(lines, d, codec) && d < k < EndOf(lines, d, codec) && lines[k].kind == Content
    requires ReadAt(lines, k, codec).NotALine? || ReadAt(lines, k, codec).Undecodable? || Named(lines, k, codec, "changetype")
    ensures Contribution(lines, d, EndOf(lines, d, codec), codec) == []
  {
    InRecord(lines, d, k, codec);
    hide Head, EndOf, AttributesOf, ParseAttributeLine;
    assert ProblemAt(lines, k, codec).Some?;
  }

  lemma {:induction false} InRecord(lines: seq<Line>, d: nat, k: nat, codec: Codec)
    requires d < k <= |lines| && IsDn(lines, d, codec) && forall j :: d < j < k ==> !Stops(lines, j, codec)
    ensures Head(lines, k, codec) == Some(d)
  {
    hide IsDn;
    if k > d + 1 {
      InRecord(lines, d, k - 1, codec);
      assert !Stops(lines, k - 1, codec);
    } else {
      DnIsContent(lines, d, codec);
    }
  }

  lemma DnIsContent(lines: seq<Line>, d: nat, codec: Codec)
    requires d < |lines| && IsDn(lines, d, codec)
    ensures lines[d].kind == Content
  {
  }

  function WithoutComments(lines: seq<Line>): seq<Line> {
    if lines == [] then []
    else (if lines[0].kind == Comment then [] else [lines[0]]) + WithoutComments(lines[1..])
  }

  lemma {:induction false} RunUncommented(s: State, lines: seq<Line>, codec: Codec)
    ensures Run(s, lines, codec) == Run(s, WithoutComments(lines), codec)
    decreases |lines|
  {
    if lines != [] {
      RunUncommented(Step(s, lines[0], codec), lines[1..], codec);
      var rest := WithoutComments(lines[1..]);
      if lines[0].kind == Comment {
        assert WithoutComments(lines) == rest;
      } else {
        assert WithoutComments(lines) == [lines[0]] + rest && ([lines[0]] + rest)[1..] == rest;
      }
      hide StepPair, Flush, Fail, ParseAttributeLine, IsVersionLine;
    }
  }

  /** Comments make no difference, in a record or outside. */
  lemma CommentsChangeNothing(lines: seq<Line>, codec: Codec)
    ensures RecordsOf(lines, codec) == RecordsOf(WithoutComments(lines), codec)
  {
    hide *;
    LinesRead(lines, codec);
    LinesRead(WithoutComments(lines), codec);
    RunUncommented(INITIAL, lines, codec);
  }

  /** A line is an attribute's exactly when it has a name, a colon and, behind a second colon, decodable text. */
  lemma LineForms(line: string, codec: Codec)
    ensures ParseAttributeLine(line, codec) == NotALine
      <==> !exists name, rest {:trigger name + ":" + rest} :: IsAttributeDescription(name) && line == name + ":" + rest
    ensures forall name, rest {:trigger name + ":" + rest} :: IsAttributeDescription(name) && line == name + ":" + rest ==>
      ParseAttributeLine(line, codec)
        == if rest != "" && rest[0] == ':' then
             (match codec.decode(StripBlanks(rest[1..])) case None => Undecodable case Some(value) => Pair(name, value))
           else Pair(name, StripBlanks(rest))
  {
    hide IsAttributeDescription, StripBlanks;
    forall name, rest {:trigger name + ":" + rest} | IsAttributeDescription(name) && line == name + ":" + rest
      ensures IndexOf(line, ':') == |name| > 0 && line[..|name|] == name && line[|name| + 1..] == rest
    {
      AttributeShape(name);
      assert line == name + [':'] + rest;
      IndexOfAt(name, ':', rest);
    }
    var colon := IndexOf(line, ':');
    if colon > 0 && IsAttributeDescription(line[..colon]) {
      assert line == line[..colon] + ":" + line[colon + 1..];
    }
  }

  lemma BlankText(codec: Codec)
    ensures var lines := Unfold(PhysicalLines(""), 1, None);
            !ThrowsBefore(lines, |lines|, codec) && EntriesOf(lines, |lines|, codec) == [] && ErrorsOf(lines, |lines|,
              codec) == []
  {
    var lines := Unfold(PhysicalLines(""), 1, None);
    assert PhysicalLines("") == [""] && [""][1..] == [];
    assert Unfold([], 2, Some(Line("", 1, Blank))) == [Line("", 1, Blank)];
    assert lines == [] + [Line("", 1, Blank)];
    hide ParseAttributeLine;
  }
}
