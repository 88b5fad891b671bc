/**
 How the parser of frontend/src/lib/ldif.ts cuts arbitrary text into lines and joins folded ones, said
 without its loop: unfoldLines.
 */
module LdifLines {
  import opened Wrappers
  import opened Text
  import opened Ldif
  import opened LdifTheorems

  // --- Physical lines -------------------------------------------------------------------------

  predicate IsBreak(sep: string) {
    sep == "\n" || sep == "\r\n" || sep == "\r"
  }

  /** The lines with their breaks between them. */
  function Weave(parts: seq<string>, breaks: seq<string>): string
    requires |parts| == |breaks| + 1
  {
    if breaks == [] then parts[0] else parts[0] + breaks[0] + Weave(parts[1..], breaks[1..])
  }

  /** The text is these lines with these breaks; a carriage return and a line feed behind it are one break. */
  predicate CutInto(text: string, parts: seq<string>, breaks: seq<string>) {
    && |parts| == |breaks| + 1 && text == Weave(parts, breaks)
    && (forall i :: 0 <= i < |parts| ==> Clean(parts[i]))
    && (forall i :: 0 <= i < |breaks| ==> IsBreak(breaks[i]))
    && forall i :: 0 <= i < |breaks| - 1 && breaks[i] == "\r" && breaks[i + 1] == "\n" ==> parts[i + 1] != ""
  }

  lemma {:induction false} LineIsTaken(line: string, rest: string)
    requires Clean(line)
    ensures PhysicalLines(line + rest) == [line + PhysicalLines(rest)[0]] + PhysicalLines(rest)[1..]
  {
    if line == "" {
      assert line + rest == rest && "" + PhysicalLines(rest)[0] == PhysicalLines(rest)[0];
    } else {
      assert line[0] in line;
      LineIsTaken(line[1..], rest);
      assert (line + rest)[0] == line[0] && (line + rest)[1..] == line[1..] + rest;
      assert [line[0]] + (line[1..] + PhysicalLines(rest)[0]) == line + PhysicalLines(rest)[0];
    }
  }

  lemma BreakIsTaken(sep: string, rest: string)
    requires IsBreak(sep) && (sep == "\r" ==> rest == "" || rest[0] != '\n')
    ensures PhysicalLines(sep + rest) == [""] + PhysicalLines(rest)
  {
    var s := sep + rest;
    if sep == "\r\n" {
      assert s[0] == '\r' && s[1] == '\n' && s[2..] == rest;
    } else {
      assert s[0] == sep[0] && s[1..] == rest;
      assert |s| > 1 ==> s[1] == rest[0];
    }
  }

  lemma WeaveStarts(parts: seq<string>, breaks: seq<string>)
    requires |parts| == |breaks| + 1 && Clean(parts[0]) && forall i :: 0 <= i < |breaks| ==> IsBreak(breaks[i])
    requires parts[0] == "" && breaks != [] ==> breaks[0] != "\n"
    ensures Weave(parts, breaks) == "" || Weave(parts, breaks)[0] != '\n'
  {
    if parts[0] != "" {
      assert parts[0][0] in parts[0];
    }
  }

  /** Text that can be cut this way is cut this way. */
  lemma {:induction false} CutIsFound(text: string, parts: seq<string>, breaks: seq<string>)
    requires CutInto(text, parts, breaks)
    ensures PhysicalLines(text) == parts
    decreases |parts|
  {
    var line := parts[0];
    if breaks == [] {
      LineIsTaken(line, "");
      assert line + "" == line && parts == [line];
    } else {
      var rest := Weave(parts[1..], breaks[1..]);
      CutIsFound(rest, parts[1..], breaks[1..]);
      assert text == line + (breaks[0] + rest);
      LineIsTaken(line, breaks[0] + rest);
      if breaks[0] == "\r" {
        WeaveStarts(parts[1..], breaks[1..]);
      }
      BreakIsTaken(breaks[0], rest);
      assert line + "" == line && parts == [line] + parts[1..];
    }
  }

  /** And all text can be. */
  lemma {:induction false} TextIsCut(text: string) returns (breaks: seq<string>)
    ensures CutInto(text, PhysicalLines(text), breaks)
    decreases |text|
  {
    var parts := PhysicalLines(text);
    if text == "" {
      breaks := [];
    } else if |text| > 1 && text[0] == '\r' && text[1] == '\n' {
      var more := TextIsCut(text[2..]);
      breaks := ["\r\n"] + more;
      assert text == "" + "\r\n" + text[2..];
      MoreBreaks("\r\n", text[2..], PhysicalLines(text[2..]), more);
    } else if text[0] == '\r' || text[0] == '\n' {
      var more := TextIsCut(text[1..]);
      breaks := [[text[0]]] + more;
      assert text == "" + [text[0]] + text[1..];
      MoreBreaks([text[0]], text[1..], PhysicalLines(text[1..]), more);
    } else {
      breaks := TextIsCut(text[1..]);
      var rest := PhysicalLines(text[1..]);
      assert text == [text[0]] + text[1..];
      LongerLine(text[0], text[1..], rest, breaks);
    }
  }

  lemma MoreBreaks(sep: string, text: string, parts: seq<string>, breaks: seq<string>)
    requires IsBreak(sep) && CutInto(text, parts, breaks) && (sep == "\r" ==> text == "" || text[0] != '\n')
    ensures CutInto("" + sep + text, [""] + parts, [sep] + breaks)
  {
    assert ([""] + parts)[1..] == parts && ([sep] + breaks)[1..] == breaks;
    assert breaks != [] && breaks[0] == "\n" && parts[0] == "" ==> text != "" && text[0] == '\n';
  }

  lemma LongerLine(c: char, text: string, parts: seq<string>, breaks: seq<string>)
    requires c != '\n' && c != '\r' && CutInto(text, parts, breaks)
    ensures CutInto([c] + text, [[c] + parts[0]] + parts[1..], breaks)
  {
    var more := [[c] + parts[0]] + parts[1..];
    assert more[1..] == parts[1..] && forall i :: 0 < i < |more| ==> more[i] == parts[i];
    assert Clean(parts[0]);
    if breaks != [] {
      assert [c] + (parts[0] + breaks[0] + Weave(parts[1..],
        breaks[1..])) == [c] + parts[0] + breaks[0] + Weave(parts[1..], breaks[1..]);
    }
  }

  // --- Logical lines ----------------------------------------------------------------------------

  /** A line that begins with a space goes on with the line before, unless that is empty. */
  predicate Folded(physical: seq<string>, k: nat)
    requires k < |physical|
  {
    k > 0 && physical[k] != "" && physical[k][0] == ' ' && physical[k - 1] != ""
  }

  /** The first line from k on that does not go on. */
  function EndOfFold(physical: seq<string>, k: nat): (e: nat)
    requires k <= |physical|
    ensures k <= e <= |physical| && (forall j :: k <= j < e ==> Folded(physical, j)) && (e < |physical| ==> !Folded(physical, e))
    decreases |physical| - k
  {
    if k < |physical| && Folded(physical, k) then EndOfFold(physical, k + 1) else k
  }

  /** Line k with the lines up to e behind it, each without its space; a comment keeps them. */
  function Joined(physical: seq<string>, k: nat, e: nat): string
    requires k < e <= |physical| && forall j :: k < j < e ==> Folded(physical, j)
    decreases e
  {
    if e == k + 1 then physical[k]
    else
      assert Folded(physical, e - 1);
      Joined(physical, k, e - 1) + if physical[k] != "" && physical[k][0] == '#' then physical[e - 1] else physical[e - 1][1..]
  }

  /** The logical lines from line k on, which begins one, each with the number of its first line. */
  function LogicalFrom(physical: seq<string>, k: nat): seq<Line>
    requires k < |physical|
    decreases |physical| - k
  {
    var e := EndOfFold(physical, k + 1);
    [Line(Joined(physical, k, e), k + 1, StartLine(physical[k], k + 1).kind)]
    + if e < |physical| then LogicalFrom(physical, e) else []
  }

  /** The line in progress when line i is reached. */
  function InProgress(physical: seq<string>, k: nat, i: nat): Line
    requires k < i <= |physical| && forall j :: k < j < i ==> Folded(physical, j)
  {
    Line(Joined(physical, k, i), k + 1, StartLine(physical[k], k + 1).kind)
  }

  lemma UnfoldNext(physical: seq<string>, i: nat, current: Line)
    requires i < |physical|
    ensures Unfold(physical[i..], i + 1, Some(current))
      == if Continues(physical[i], Some(current)) then Unfold(physical[i + 1..], i + 2, Some(Extend(current, physical[i])))
         else [current] + Unfold(physical[i + 1..], i + 2, Some(StartLine(physical[i], i + 1)))
  {
    assert physical[i..][0] == physical[i] && physical[i..][1..] == physical[i + 1..];
    hide StartLine, Extend;
  }

  lemma UnfoldEnd(physical: seq<string>, current: Line)
    ensures Unfold(physical[|physical|..], |physical| + 1, Some(current)) == [current]
  {
    assert physical[|physical|..] == [];
  }

  lemma Extended(physical: seq<string>, k: nat, i: nat)
    requires k < i < |physical| && forall j :: k < j <= i ==> Folded(physical, j)
    ensures physical[i] != "" && Extend(InProgress(physical, k, i), physical[i]) == InProgress(physical, k, i + 1)
  {
    assert Folded(physical, i);
  }

  lemma Started(physical: seq<string>, i: nat)
    requires i < |physical|
    ensures InProgress(physical, i, i + 1) == StartLine(physical[i], i + 1)
  {
  }

  lemma LogicalIs(physical: seq<string>, k: nat, i: nat)
    requires k < i <= |physical| && (forall j :: k < j < i ==> Folded(physical, j)) && (i < |physical| ==> !Folded(physical, i))
    ensures LogicalFrom(physical, k) == [InProgress(physical, k, i)] + if i < |physical| then LogicalFrom(physical, i) else []
  {
    hide Folded, StartLine;
    SameEnd(physical, k, i);
  }

  lemma {:induction false} UnfoldsFrom(physical: seq<string>, k: nat, i: nat)
    requires k < i <= |physical| && forall j :: k < j < i ==> Folded(physical, j)
    ensures Unfold(physical[i..], i + 1, Some(InProgress(physical, k, i))) == LogicalFrom(physical, k)
    decreases |physical| - i
  {
    hide InProgress, LogicalFrom, Unfold, Folded, StartLine, Extend, Continues;
    var current := InProgress(physical, k, i);
    if i == |physical| {
      UnfoldEnd(physical, current);
      LogicalIs(physical, k, i);
      assert [current] + [] == [current];
    } else {
      UnfoldNext(physical, i, current);
      ContinuesMeans(physical, k, i);
      if Folded(physical, i) {
        Extended(physical, k, i);
        UnfoldsFrom(physical, k, i + 1);
      } else {
        LogicalIs(physical, k, i);
        Started(physical, i);
        UnfoldsFrom(physical, i, i + 1);
      }
    }
  }

  lemma SameEnd(physical: seq<string>, k: nat, i: nat)
    requires k < i <= |physical| && (forall j :: k < j < i ==> Folded(physical, j)) && (i < |physical| ==> !Folded(physical, i))
    ensures EndOfFold(physical, k + 1) == i
  {
    hide Folded;
  }

  lemma ContinuesMeans(physical: seq<string>, k: nat, i: nat)
    requires k < i < |physical| && forall j :: k < j < i ==> Folded(physical, j)
    ensures Continues(physical[i], Some(InProgress(physical, k, i))) <==> Folded(physical, i)
  {
    if k + 1 < i {
      assert Folded(physical, k + 1) && Folded(physical, i - 1);
    }
  }

  /** Folded lines are joined, and only they. */
  lemma UnfoldsToLogical(text: string)
    ensures Unfold(PhysicalLines(text), 1, None) == LogicalFrom(PhysicalLines(text), 0)
  {
    var physical := PhysicalLines(text);
    assert Unfold(physical, 1, None) == [] + Unfold(physical[1..], 2, Some(StartLine(physical[0], 1)));
    hide Unfold, LogicalFrom, InProgress, StartLine;
    Started(physical, 0);
    UnfoldsFrom(physical, 0, 1);
  }
}
