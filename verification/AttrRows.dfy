/** From the editor's rows to an attribute record: attrRowsToAttributes of frontend/src/lib/ldapDiff.ts. */
module AttrRows {
  import opened Wrappers
  import opened Text
  import opened LdapDiff

  /** A row of the editor; sourceValues are the values it was filled from. */
  datatype Row = Row(name: string, valuesText: string, sourceValues: Option<seq<string>>)

  function NonEmpty(parts: seq<string>): seq<string> {
    if parts == [] then [] else (if parts[0] != "" then [parts[0]] else []) + NonEmpty(parts[1..])
  }

  /** The values not seen before, each once. */
  function Fresh(values: seq<string>, seen: set<string>): seq<string> {
    if values == [] then []
    else if values[0] in seen then Fresh(values[1..], seen)
    else [values[0]] + Fresh(values[1..], seen + {values[0]})
  }

  function RowValues(row: Row): seq<string> {
    if row.sourceValues.Some? && row.valuesText == Join(row.sourceValues.value, "\n") then row.sourceValues.value
    else Fresh(NonEmpty(Split(row.valuesText, '\n')), {})
  }

  function Elements(values: seq<string>): set<string> {
    set v | v in values
  }

  /** The position of the attribute, whatever the case of its name; the length when it is missing. */
  function Position(attrs: Attributes, key: string): (i: nat)
    ensures i <= |attrs| && (i < |attrs| ==> Lower(attrs[i].0) == key)
    ensures forall k :: 0 <= k < i ==> Lower(attrs[k].0) != key
  {
    if attrs == [] || Lower(attrs[0].0) == key then 0 else 1 + Position(attrs[1..], key)
  }

  function Merge(attrs: Attributes, name: string, values: seq<string>): Attributes {
    var i := Position(attrs, Lower(name));
    if i == |attrs| then attrs + [(name, values)]
    else attrs[i := (attrs[i].0, attrs[i].1 + Fresh(values, Elements(attrs[i].1)))]
  }

  function AddRow(attrs: Attributes, row: Row): Attributes {
    var name := Trim(row.name);
    if name == "" || RowValues(row) == [] then attrs else Merge(attrs, name, RowValues(row))
  }

  function AddRows(attrs: Attributes, rows: seq<Row>): Attributes
    decreases |rows|
  {
    if rows == [] then attrs else AddRows(AddRow(attrs, rows[0]), rows[1..])
  }

  function RowsToAttributes(rows: seq<Row>): Attributes {
    AddRows([], rows)
  }

  /** The map beside the record: where each attribute stands, and the values it has. */
  ghost predicate Merging(merging: map<string, (nat, set<string>)>, result: Attributes) {
    && (forall k :: k in merging ==>
          merging[k].0 < |result| && merging[k].0 == Position(result, k) && merging[k].1 == Elements(result[merging[k].0].1))
    && (forall k :: k !in merging ==> Position(result, k) == |result|)
  }

  method ConvertRows(rows: seq<Row>) returns (result: Attributes)
    ensures result == RowsToAttributes(rows)
  {
    result := [];
    var merging: map<string, (nat, set<string>)> := map[];
    assert rows[0..] == rows;
    for r := 0 to |rows|
      invariant RowsToAttributes(rows) == AddRows(result, rows[r..]) && Merging(merging, result)
    {
      hide *;
      NextRow(result, rows, r);
      RowAdds(result, rows[r]);
      var name := Trim(rows[r].name);
      if name == "" {
        continue;
      }
      var values := RowValues(rows[r]);
      if |values| == 0 {
        continue;
      }
      var key := Lower(name);
      if key !in merging {
        MergingNew(merging, result, name, values);
        merging := merging[key := (|result|, Elements(values))];
        result := result + [(name, values)];
        continue;
      }
      var (i, seen) := merging[key];
      MergingMore(merging, result, name, values, i, seen);
      var existing, all := MergeValues(result[i].1, seen, values);
      merging := merging[key := (i, all)];
      result := result[i := (result[i].0, existing)];
    }
  }

  /** The values not there yet are pushed one by one. */
  method MergeValues(existing: seq<string>, seen: set<string>, values: seq<string>)
    returns (merged: seq<string>, all: set<string>)
    requires seen == Elements(existing)
    ensures merged == existing + Fresh(values, seen) && all == Elements(merged)
  {
    merged, all := existing, seen;
    ghost var rest := Fresh(values, seen);
    assert values[0..] == values;
    for i := 0 to |values|
      invariant existing + Fresh(values, seen) == merged + rest && rest == Fresh(values[i..], all)
      invariant all == Elements(merged)
    {
      assert values[i..][1..] == values[i + 1..];
      if values[i] !in all {
        ghost var before := merged;
        rest := Fresh(values[i + 1..], all + {values[i]});
        Assoc(before, [values[i]], rest);
        merged, all := merged + [values[i]], all + {values[i]};
      }
    }
    assert merged + [] == merged;
  }

  lemma RowAdds(attrs: Attributes, row: Row)
    ensures AddRow(attrs, row)
      == if Trim(row.name) == "" || RowValues(row) == [] then attrs else Merge(attrs, Trim(row.name), RowValues(row))
  {
    hide Merge, RowValues, Trim;
  }

  lemma NextRow(result: Attributes, rows: seq<Row>, r: nat)
    requires r < |rows|
    ensures AddRows(result, rows[r..]) == AddRows(AddRow(result, rows[r]), rows[r + 1..])
  {
    assert rows[r..][1..] == rows[r + 1..];
    hide AddRow;
  }

  lemma PositionAfter(attrs: Attributes, name: string, values: seq<string>, k: string)
    ensures Position(attrs + [(name, values)], k)
      == if Position(attrs, k) < |attrs| then Position(attrs, k) else if Lower(name) == k then |attrs| else |attrs| + 1
  {
    var more := attrs + [(name, values)];
    assert forall i :: 0 <= i < |attrs| ==> more[i] == attrs[i];
    assert more[|attrs|] == (name, values);
  }

  lemma PositionUpdated(attrs: Attributes, i: nat, values: seq<string>, k: string)
    requires i < |attrs|
    ensures Position(attrs[i := (attrs[i].0, values)], k) == Position(attrs, k)
  {
    var updated := attrs[i := (attrs[i].0, values)];
    assert forall j :: 0 <= j < |attrs| ==> updated[j].0 == attrs[j].0;
  }

  lemma MergingNew(merging: map<string, (nat, set<string>)>, result: Attributes, name: string, values: seq<string>)
    requires Merging(merging, result) && Lower(name) !in merging
    ensures Merge(result, name, values) == result + [(name, values)]
    ensures Merging(merging[Lower(name) := (|result|, Elements(values))], result + [(name, values)])
  {
    hide Position, Elements, Fresh, Lower;
    forall k ensures Position(result + [(name, values)], k)
      == if Position(result, k) < |result| then Position(result, k) else if Lower(name) == k then |result| else |result| + 1
    {
      PositionAfter(result, name, values, k);
    }
  }

  lemma MergingMore(merging: map<string, (nat, set<string>)>, result: Attributes, name: string, values: seq<string>,
                    i: nat, seen: set<string>)
    requires Merging(merging, result) && Lower(name) in merging && merging[Lower(name)] == (i, seen)
    ensures i < |result| && seen == Elements(result[i].1)
    ensures var merged := result[i].1 + Fresh(values, seen);
            && Merge(result, name, values) == result[i := (result[i].0, merged)]
            && Merging(merging[Lower(name) := (i, Elements(merged))], result[i := (result[i].0, merged)])
  {
    var key := Lower(name);
    hide Position, Elements, Fresh, Lower;
    var merged := result[i].1 + Fresh(values, seen);
    forall k ensures Position(result[i := (result[i].0, merged)], k) == Position(result, k) {
      PositionUpdated(result, i, merged, k);
    }
    forall k | k in merging && k != key ensures merging[k].0 != i {
      PositionKey(result, k);
      PositionKey(result, key);
    }
  }

  lemma PositionKey(attrs: Attributes, k: string)
    ensures Position(attrs, k) < |attrs| ==> Lower(attrs[Position(attrs, k)].0) == k
  {
  }

  // --- What the record looks like -------------------------------------------------------

  /** Every attribute once, whatever the case of its name, with a name and at least one value. */
  predicate WellShaped(attrs: Attributes) {
    && (forall i, j :: 0 <= i < j < |attrs| ==> Lower(attrs[i].0) != Lower(attrs[j].0))
    && (forall i :: 0 <= i < |attrs| ==> attrs[i].0 != "" && Trimmed(attrs[i].0) && attrs[i].1 != [])
  }

  lemma MergeShape(attrs: Attributes, name: string, values: seq<string>)
    requires WellShaped(attrs) && name != "" && Trimmed(name) && values != []
    ensures WellShaped(Merge(attrs, name, values))
  {
    var merged := Merge(attrs, name, values);
    var i := Position(attrs, Lower(name));
    hide Lower, Fresh, Trimmed;
    if i < |attrs| {
      assert forall j :: 0 <= j < |attrs| ==> merged[j].0 == attrs[j].0;
    }
  }

  /** However the rows are edited, split over several rows or spelled, the record is well shaped. */
  lemma {:induction false} RowsAreWellShaped(attrs: Attributes, rows: seq<Row>)
    requires WellShaped(attrs)
    ensures WellShaped(AddRows(attrs, rows))
    decreases |rows|
  {
    if rows != [] {
      var name := Trim(rows[0].name);
      TrimTrims(rows[0].name);
      if name != "" && RowValues(rows[0]) != [] {
        MergeShape(attrs, name, RowValues(rows[0]));
      }
      hide WellShaped, Merge, RowValues, Trim;
      RowsAreWellShaped(AddRow(attrs, rows[0]), rows[1..]);
    }
  }

  /** The record holds the value for the attribute. */
  predicate Holds(attrs: Attributes, key: string, value: string) {
    var i := Position(attrs, key);
    i < |attrs| && value in attrs[i].1
  }

  /** The row still shows the values it was filled from. */
  predicate Untouched(row: Row) {
    row.sourceValues.Some? && row.valuesText == Join(row.sourceValues.value, "\n")
  }

  /** A line of the text, without the newlines around it. */
  ghost predicate IsLine(line: string, text: string) {
    '\n' !in line
    && exists a, b {:trigger a + line + b} ::
         text == a + line + b && (a != "" ==> a[|a| - 1] == '\n') && (b != "" ==> b[0] == '\n')
  }

  /** An untouched row gives its source values, empty ones too; an edited one its lines that are not empty. */
  ghost predicate RowGives(row: Row, key: string, value: string) {
    Trim(row.name) != "" && Lower(Trim(row.name)) == key
    && if Untouched(row) then value in row.sourceValues.value else value != "" && IsLine(value, row.valuesText)
  }

  lemma {:induction false} NonEmptyLines(parts: seq<string>, v: string)
    ensures v in NonEmpty(parts) <==> v in parts && v != ""
  {
    if parts != [] {
      NonEmptyLines(parts[1..], v);
      assert parts == [parts[0]] + parts[1..];
    }
  }

  lemma {:induction false} SplitLines(text: string, v: string)
    ensures v in Split(text, '\n') <==> IsLine(v, text)
    decreases |text|
  {
    var parts := Split(text, '\n');
    if v in parts {
      PartIsLine(text, v);
    }
    if IsLine(v, text) {
      var a, b :| text == a + v + b && (a != "" ==> a[|a| - 1] == '\n') && (b != "" ==> b[0] == '\n');
      LineIsPart(a, v, b);
    }
  }

  lemma {:induction false} PartIsLine(text: string, v: string)
    requires v in Split(text, '\n')
    ensures IsLine(v, text)
    decreases |text|
  {
    var parts := Split(text, '\n');
    var k :| 0 <= k < |parts| && parts[k] == v;
    var a, b := Around(text, k);
    assert text == a + v + b;
  }

  /** What stands around the part at k. */
  lemma {:induction false} Around(text: string, k: nat) returns (a: string, b: string)
    requires k < |Split(text, '\n')|
    ensures text == a + Split(text, '\n')[k] + b
    ensures (if k == 0 then a == "" else a != "" && a[|a| - 1] == '\n') && (b != "" ==> b[0] == '\n')
    decreases |text|
  {
    if text == "" {
      a, b := "", "";
    } else if text[0] == '\n' {
      if k == 0 {
        a, b := "", text;
      } else {
        a, b := Around(text[1..], k - 1);
        a := ['\n'] + a;
        assert text == ['\n'] + text[1..];
      }
    } else {
      a, b := Around(text[1..], k);
      assert text == [text[0]] + text[1..];
      if k > 0 {
        a := [text[0]] + a;
      }
    }
  }

  lemma {:induction false} LineIsPart(a: string, v: string, b: string)
    requires '\n' !in v && (a != "" ==> a[|a| - 1] == '\n') && (b != "" ==> b[0] == '\n')
    ensures v in Split(a + v + b, '\n')
    decreases |a|
  {
    var text := a + v + b;
    if a != "" {
      LineIsPart(a[1..], v, b);
      assert text[1..] == a[1..] + v + b && text[0] == a[0];
      if a[0] != '\n' {
        LaterPart(a[1..], v, b);
      }
    } else {
      assert text == v + b;
      FirstPart(v, b);
    }
  }

  lemma {:induction false} FirstPart(v: string, b: string)
    requires '\n' !in v && (b != "" ==> b[0] == '\n')
    ensures Split(v + b, '\n')[0] == v
  {
    if v != "" {
      assert (v + b)[1..] == v[1..] + b && v[0] in v;
      FirstPart(v[1..], b);
    }
  }

  /** Behind a newline a line is not the first part. */
  lemma {:induction false} LaterPart(a: string, v: string, b: string)
    requires '\n' !in v && a != "" && a[|a| - 1] == '\n' && (b != "" ==> b[0] == '\n')
    ensures v in Split(a + v + b, '\n')[1..]
    decreases |a|
  {
    var text := a + v + b;
    assert text[1..] == a[1..] + v + b && text[0] == a[0];
    if a[0] == '\n' {
      LineIsPart(a[1..], v, b);
      assert Split(text, '\n')[1..] == Split(text[1..], '\n');
    } else {
      LaterPart(a[1..], v, b);
      assert Split(text, '\n')[1..] == Split(text[1..], '\n')[1..];
    }
  }

  /** What a row gives is what the two rules of the editor say. */
  lemma RowValuesAre(row: Row, v: string)
    ensures v in RowValues(row)
      <==> if Untouched(row) then v in row.sourceValues.value else v != "" && IsLine(v, row.valuesText)
  {
    hide IsLine;
    if !Untouched(row) {
      FreshAdds(NonEmpty(Split(row.valuesText, '\n')), {}, v);
      NonEmptyLines(Split(row.valuesText, '\n'), v);
      SplitLines(row.valuesText, v);
    }
  }

  /** A single untouched row is saved as it was filled, with its order and its repetitions. */
  lemma UntouchedRowIsKept(row: Row)
    requires Untouched(row) && row.sourceValues.value != [] && Trim(row.name) != ""
    ensures RowsToAttributes([row]) == [(Trim(row.name), row.sourceValues.value)]
  {
    hide Trim, Lower;
    assert AddRow([], row) == [(Trim(row.name), row.sourceValues.value)];
    assert [row][1..] == [];
    assert AddRows(AddRow([], row), []) == AddRow([], row);
  }

  predicate NoRepeats(values: seq<string>) {
    forall i, j :: 0 <= i < j < |values| ==> values[i] != values[j]
  }

  /** Where a value first occurs; the length when it does not. */
  function First(values: seq<string>, v: string): (i: nat)
    ensures i <= |values| && (i < |values| ==> values[i] == v) && forall k :: 0 <= k < i ==> values[k] != v
  {
    if values == [] || values[0] == v then 0 else 1 + First(values[1..], v)
  }

  /** Collapsing keeps the order of the first occurrences. */
  lemma {:induction false} FreshInOrder(values: seq<string>, seen: set<string>)
    ensures NoRepeats(Fresh(values, seen)) && forall k :: 0 <= k < |Fresh(values, seen)| ==> Fresh(values, seen)[k] !in seen
    ensures forall i, j :: 0 <= i < j < |Fresh(values, seen)| ==>
              First(values, Fresh(values, seen)[i]) < First(values, Fresh(values, seen)[j])
  {
    if values != [] {
      var more := if values[0] in seen then seen else seen + {values[0]};
      FreshInOrder(values[1..], more);
      var rest := Fresh(values[1..], more);
      forall k | 0 <= k < |rest| ensures First(values, rest[k]) == 1 + First(values[1..], rest[k]) {
        assert rest[k] !in more;
      }
    }
  }

  /** An edited row is saved without repetitions, its lines in the order in which they first stand. */
  lemma EditedRowInOrder(row: Row)
    requires !Untouched(row) && Trim(row.name) != ""
    ensures var lines := NonEmpty(Split(row.valuesText, '\n'));
            var saved := RowsToAttributes([row]);
            if lines == [] then saved == []
            else |saved| == 1 && saved[0].0 == Trim(row.name) && NoRepeats(saved[0].1)
                 && forall i, j :: 0 <= i < j < |saved[0].1| ==> First(lines, saved[0].1[i]) < First(lines, saved[0].1[j])
  {
    var lines := NonEmpty(Split(row.valuesText, '\n'));
    FreshInOrder(lines, {});
    hide Trim, Lower, Split, NonEmpty;
    assert [row][1..] == [];
    assert AddRows(AddRow([], row), []) == AddRow([], row);
  }

  lemma {:induction false} FreshAdds(values: seq<string>, seen: set<string>, v: string)
    ensures v in Fresh(values, seen) || v in seen <==> v in values || v in seen
  {
    if values != [] {
      assert values == [values[0]] + values[1..];
      FreshAdds(values[1..], seen, v);
      FreshAdds(values[1..], seen + {values[0]}, v);
    }
  }

  lemma MergeHolds(attrs: Attributes, name: string, values: seq<string>, key: string, v: string)
    ensures Holds(Merge(attrs, name, values), key, v) <==> Holds(attrs, key, v) || (Lower(name) == key && v in values)
  {
    var i := Position(attrs, Lower(name));
    if i == |attrs| {
      PositionAfter(attrs, name, values, key);
    } else {
      var merged := attrs[i].1 + Fresh(values, Elements(attrs[i].1));
      PositionUpdated(attrs, i, merged, key);
      FreshAdds(values, Elements(attrs[i].1), v);
      PositionKey(attrs, key);
    }
    hide Lower, Fresh, Position;
  }

  /** No value is lost or invented: the record holds exactly what some row of that name gives. */
  lemma {:induction false} RowsGiveValues(attrs: Attributes, rows: seq<Row>, key: string, v: string)
    ensures Holds(AddRows(attrs, rows), key, v)
      <==> Holds(attrs, key, v) || exists r :: r in rows && RowGives(r, key, v)
    decreases |rows|
  {
    if rows != [] {
      var row := rows[0];
      assert rows == [row] + rows[1..];
      MergeHolds(attrs, Trim(row.name), RowValues(row), key, v);
      RowValuesAre(row, v);
      assert Holds(AddRow(attrs, row), key, v) <==> Holds(attrs, key, v) || RowGives(row, key, v);
      hide Holds, RowGives, AddRow;
      RowsGiveValues(AddRow(attrs, row), rows[1..], key, v);
    }
  }

  /** These values with others behind them, each of those new and once. */
  predicate Extends(values: seq<string>, more: seq<string>) {
    values <= more && NoRepeats(more[|values|..]) && forall i :: |values| <= i < |more| ==> more[i] !in values
  }

  lemma ExtendsMore(a: seq<string>, b: seq<string>, c: seq<string>)
    requires Extends(a, b) && Extends(b, c)
    ensures Extends(a, c)
  {
    assert c == b + c[|b|..] && c[|a|..] == b[|a|..] + c[|b|..];
    forall i | |a| <= i < |c| ensures c[i] !in a {
      if i >= |b| {
        assert forall x :: x in a ==> x in b;
      }
    }
  }

  /** The attributes stay where they are, under the spelling they came with, and get values behind the old. */
  predicate Grows(attrs: Attributes, more: Attributes) {
    |attrs| <= |more| && forall i :: 0 <= i < |attrs| ==> more[i].0 == attrs[i].0 && Extends(attrs[i].1, more[i].1)
  }

  lemma MergeGrows(attrs: Attributes, name: string, values: seq<string>)
    ensures Grows(attrs, Merge(attrs, name, values))
  {
    var i := Position(attrs, Lower(name));
    if i < |attrs| {
      var had := attrs[i].1;
      var added := Fresh(values, Elements(had));
      FreshInOrder(values, Elements(had));
      assert (had + added)[|had|..] == added;
      assert forall k :: |had| <= k < |had + added| ==> (had + added)[k] == added[k - |had|];
    }
    hide Lower, Fresh, Position;
  }

  /** Later rows add behind what earlier rows gave, and nothing twice. */
  lemma {:induction false} RowsGrow(attrs: Attributes, rows: seq<Row>)
    ensures Grows(attrs, AddRows(attrs, rows))
    decreases |rows|
  {
    if rows != [] {
      MergeGrows(attrs, Trim(rows[0].name), RowValues(rows[0]));
      var next := AddRow(attrs, rows[0]);
      assert Grows(attrs, next);
      hide AddRow;
      RowsGrow(next, rows[1..]);
      forall i | 0 <= i < |attrs| ensures Extends(attrs[i].1, AddRows(attrs, rows)[i].1) {
        ExtendsMore(attrs[i].1, next[i].1, AddRows(attrs, rows)[i].1);
      }
    }
  }

  /** Saving edited rows reaches the edited record, exactly when joined texts tell the values apart. */
  lemma EditedRowsApply(before: Attributes, rows: seq<Row>)
    ensures ApplyAll(ByLower(before), Diff(before, RowsToAttributes(rows))) == Some(ByLower(RowsToAttributes(rows)))
      <==> JoinTellsApart(before, RowsToAttributes(rows))
  {
    RowsAreWellShaped([], rows);
    assert NoEmptyLists(RowsToAttributes(rows));
    hide AddRows;
    DiffThenApply(before, RowsToAttributes(rows));
  }
}
