/** From an edited entry to the modify request (section 4.6 of RFC 4511): frontend/src/lib/ldapDiff.ts. */
module LdapDiff {
  import opened Wrappers
  import opened Text

  /** The properties of an attribute record, in the order of Object.entries. */
  type Attributes = seq<(string, seq<string>)>

  /** What the record says about each attribute, under its name in lower case. */
  type Values = map<string, seq<string>>

  datatype Operation = Add | Replace | Delete

  datatype Change = Change(operation: Operation, attribute: string, values: seq<string>)

  function ByLower(attrs: Attributes): Values {
    if attrs == [] then map[]
    else
      var front := ByLower(attrs[..|attrs| - 1]);
      var (name, values) := attrs[|attrs| - 1];
      if Lower(name) in front then front else front[Lower(name) := values]
  }

  /** The name under which the record first mentions the attribute. */
  function NameOf(attrs: Attributes, key: string): string {
    if attrs == [] then key else if Lower(attrs[0].0) == key then attrs[0].0 else NameOf(attrs[1..], key)
  }

  function Names(attrs: Attributes): (r: seq<string>)
    ensures |r| == |attrs| && forall i :: 0 <= i < |attrs| ==> r[i] == attrs[i].0
  {
    if attrs == [] then [] else [attrs[0].0] + Names(attrs[1..])
  }

  /** The change that one attribute needs, if any. */
  function ChangeFor(key: string, before: Attributes, after: Attributes): seq<Change> {
    var lower := Lower(key);
    var b, a := ByLower(before), ByLower(after);
    if lower !in b && lower in a then [Change(Add, NameOf(after, lower), a[lower])]
    else if lower in b && lower !in a then [Change(Delete, key, [])]
    else if lower in b && lower in a && Join(b[lower], "\n") != Join(a[lower], "\n") then
      [Change(Replace, NameOf(after, lower), a[lower])]
    else []
  }

  /** The changes for the names not seen before, the first spelling of each standing for it. */
  function ChangesFor(keys: seq<string>, seen: set<string>, before: Attributes, after: Attributes): seq<Change> {
    if keys == [] then []
    else if Lower(keys[0]) in seen then ChangesFor(keys[1..], seen, before, after)
    else ChangeFor(keys[0], before, after) + ChangesFor(keys[1..], seen + {Lower(keys[0])}, before, after)
  }

  function Diff(before: Attributes, after: Attributes): seq<Change> {
    ChangesFor(Names(before) + Names(after), {}, before, after)
  }

  lemma ByLowerNext(attrs: Attributes, i: nat)
    requires i < |attrs|
    ensures var front, lower := ByLower(attrs[..i]), Lower(attrs[i].0);
            ByLower(attrs[..i + 1]) == if lower in front then front else front[lower := attrs[i].1]
  {
    assert attrs[..i + 1][..i] == attrs[..i] && attrs[..i + 1][i] == attrs[i];
    hide Lower;
  }

  /** The two maps after the first i attributes. */
  ghost predicate IndexedUpTo(values: Values, names: map<string, string>, attrs: Attributes, i: nat) {
    && i <= |attrs| && values == ByLower(attrs[..i])
    && names.Keys == values.Keys && (forall k :: k in names ==> names[k] == NameOf(attrs, k))
    && forall j :: 0 <= j < i ==> Lower(attrs[j].0) in values
  }

  lemma IndexNext(values: Values, names: map<string, string>, attrs: Attributes, i: nat)
    requires IndexedUpTo(values, names, attrs, i) && i < |attrs|
    ensures var lower := Lower(attrs[i].0);
            if lower in values then IndexedUpTo(values, names, attrs, i + 1)
            else IndexedUpTo(values[lower := attrs[i].1], names[lower := attrs[i].0], attrs, i + 1)
  {
    ByLowerNext(attrs, i);
    hide ByLower, NameOf, Lower;
    if Lower(attrs[i].0) !in values {
      FirstName(attrs, i);
    }
  }

  lemma IndexEnds(attrs: Attributes)
    ensures IndexedUpTo(map[], map[], attrs, 0)
    ensures forall values, names ::
      (IndexedUpTo(values, names, attrs, |attrs|) ==>
         values == ByLower(attrs) && names.Keys == values.Keys && forall k :: k in names ==> names[k] == NameOf(attrs, k))
  {
    assert attrs[..|attrs|] == attrs;
    hide NameOf, Lower;
  }

  method IndexByLower(attrs: Attributes) returns (values: Values, names: map<string, string>)
    ensures values == ByLower(attrs)
    ensures names.Keys == values.Keys && forall k :: k in names ==> names[k] == NameOf(attrs, k)
  {
    hide *;
    values, names := map[], map[];
    IndexEnds(attrs);
    for i := 0 to |attrs|
      invariant IndexedUpTo(values, names, attrs, i)
    {
      IndexNext(values, names, attrs, i);
      var lower := Lower(attrs[i].0);
      if lower !in values {
        values, names := values[lower := attrs[i].1], names[lower := attrs[i].0];
      }
    }
  }

  lemma FirstName(attrs: Attributes, i: nat)
    requires i < |attrs| && forall j :: 0 <= j < i ==> Lower(attrs[j].0) != Lower(attrs[i].0)
    ensures NameOf(attrs, Lower(attrs[i].0)) == attrs[i].0
  {
    if i > 0 {
      FirstName(attrs[1..], i - 1);
    }
  }

  /** What the index of a record knows. */
  predicate Indexed(values: Values, names: map<string, string>, attrs: Attributes) {
    values == ByLower(attrs) && names.Keys == values.Keys && forall k :: k in names ==> names[k] == NameOf(attrs, k)
  }

  method ChangeOf(key: string, b: Values, a: Values, names: map<string, string>, ghost before: Attributes, ghost after: Attributes)
    returns (more: seq<Change>)
    requires b == ByLower(before) && Indexed(a, names, after)
    ensures more == ChangeFor(key, before, after)
  {
    hide ByLower, NameOf, Join, Lower;
    var lower := Lower(key);
    more := [];
    if lower !in b && lower in a {
      more := [Change(Add, names[lower], a[lower])];
    } else if lower in b && lower !in a {
      more := [Change(Delete, key, [])];
    } else if lower in b && lower in a && Join(b[lower], "\n") != Join(a[lower], "\n") {
      more := [Change(Replace, names[lower], a[lower])];
    }
  }

  method DiffChanges(before: Attributes, after: Attributes) returns (changes: seq<Change>)
    ensures changes == Diff(before, after)
  {
    var beforeByLower, beforeNames := IndexByLower(before);
    var afterByLower, afterNames := IndexByLower(after);
    var keys := Names(before) + Names(after);
    var seenLower: set<string> := {};
    changes := [];
    ghost var rest := Diff(before, after);
    assert keys[0..] == keys && [] + rest == rest;
    assert Indexed(afterByLower, afterNames, after);
    hide *;
    for i := 0 to |keys|
      invariant Diff(before, after) == changes + rest && rest == ChangesFor(keys[i..], seenLower, before, after)
    {
      NextKey(keys, i, seenLower, before, after);
      var lower := Lower(keys[i]);
      if lower in seenLower {
        continue;
      }
      seenLower := seenLower + {lower};
      var more := ChangeOf(keys[i], beforeByLower, afterByLower, afterNames, before, after);
      rest := ChangesFor(keys[i + 1..], seenLower, before, after);
      Assoc(changes, more, rest);
      changes := changes + more;
    }
    NoKeys(keys, seenLower, before, after);
    assert changes + [] == changes;
  }

  lemma NoKeys(keys: seq<string>, seen: set<string>, before: Attributes, after: Attributes)
    ensures ChangesFor(keys[|keys|..], seen, before, after) == []
  {
  }

  lemma NextKey(keys: seq<string>, i: nat, seen: set<string>, before: Attributes, after: Attributes)
    requires i < |keys|
    ensures ChangesFor(keys[i..], seen, before, after)
      == if Lower(keys[i]) in seen then ChangesFor(keys[i + 1..], seen, before, after)
         else ChangeFor(keys[i], before, after) + ChangesFor(keys[i + 1..], seen + {Lower(keys[i])}, before, after)
  {
    assert keys[i..][1..] == keys[i + 1..];
    hide ChangeFor;
  }

  // --- The server's side ----------------------------------------------------------------

  /** What a change makes of one attribute; None when the server refuses it. */
  function Effect(old': Option<seq<string>>, c: Change): Option<Option<seq<string>>> {
    match c.operation
    case Add =>
      if c.values == [] then None
      else if old'.None? then Some(Some(c.values))
      else if exists i :: 0 <= i < |c.values| && c.values[i] in old'.value then None
      else Some(Some(old'.value + c.values))
    case Delete =>
      if old'.None? || exists i :: 0 <= i < |c.values| && c.values[i] !in old'.value then None
      else if c.values == [] then Some(None)
      else
        var kept := Remaining(old'.value, c.values);
        Some(if kept == [] then None else Some(kept))
    case Replace => Some(if c.values == [] then None else Some(c.values))
  }

  function Remaining(values: seq<string>, gone: seq<string>): seq<string> {
    if values == [] then [] else (if values[0] in gone then [] else [values[0]]) + Remaining(values[1..], gone)
  }

  function Get(e: Values, key: string): Option<seq<string>> {
    if key in e then Some(e[key]) else None
  }

  function Set(e: Values, key: string, values: Option<seq<string>>): Values {
    match values case None => e - {key} case Some(v) => e[key := v]
  }

  function KeyOf(c: Change): string {
    Lower(c.attribute)
  }

  /** A modify request: all its changes in order, or none of them. */
  function ApplyAll(e: Values, changes: seq<Change>): Option<Values>
    decreases |changes|
  {
    if changes == [] then Some(e)
    else
      match Effect(Get(e, KeyOf(changes[0])), changes[0])
      case None => None
      case Some(values) => ApplyAll(Set(e, KeyOf(changes[0]), values), changes[1..])
  }

  predicate DistinctKeys(changes: seq<Change>) {
    forall i, j :: 0 <= i < j < |changes| ==> KeyOf(changes[i]) != KeyOf(changes[j])
  }

  /** Every change can be made to the entry as it was. */
  predicate Applicable(e: Values, changes: seq<Change>) {
    forall c :: c in changes ==> Effect(Get(e, KeyOf(c)), c).Some?
  }

  /** The attribute after its change, or as it was. */
  ghost predicate Becomes(e: Values, changes: seq<Change>, e': Values) {
    forall k :: (forall c :: c in changes && KeyOf(c) == k ==> Effect(Get(e, k), c) == Some(Get(e', k)))
                && ((forall c :: c in changes ==> KeyOf(c) != k) ==> Get(e', k) == Get(e, k))
  }

  lemma SetOther(e: Values, key: string, values: Option<seq<string>>, k: string)
    ensures Get(Set(e, key, values), k) == if k == key then values else Get(e, k)
  {
  }

  lemma DistinctTail(changes: seq<Change>)
    requires changes != [] && DistinctKeys(changes)
    ensures DistinctKeys(changes[1..]) && forall c :: c in changes[1..] ==> c in changes && KeyOf(c) != KeyOf(changes[0])
    ensures changes[0] in changes && forall c :: c in changes ==> c == changes[0] || c in changes[1..]
  {
    hide KeyOf;
    assert changes == [changes[0]] + changes[1..];
    forall c | c in changes[1..] ensures KeyOf(c) != KeyOf(changes[0]) {
      var i :| 0 <= i < |changes| - 1 && changes[1..][i] == c;
      assert changes[i + 1] == c;
    }
  }

  /** With each attribute touched at most once, a request succeeds exactly when each of its changes
      could be made alone, and then each attribute shows its own change. */
  lemma {:induction false} ApplyIsPointwise(e: Values, changes: seq<Change>)
    requires DistinctKeys(changes)
    ensures ApplyAll(e, changes).Some? <==> Applicable(e, changes)
    ensures ApplyAll(e, changes).Some? ==> Becomes(e, changes, ApplyAll(e, changes).value)
    decreases |changes|
  {
    if changes != [] {
      var c, rest := changes[0], changes[1..];
      var k := KeyOf(c);
      DistinctTail(changes);
      var first := Effect(Get(e, k), c);
      if first.Some? {
        var next := Set(e, k, first.value);
        assert ApplyAll(e, changes) == ApplyAll(next, rest);
        hide Effect, Set, Get, KeyOf, ApplyAll;
        ApplyIsPointwise(next, rest);
        forall x ensures Get(next, x) == if x == k then first.value else Get(e, x) {
          SetOther(e, k, first.value, x);
        }
      }
    }
  }

  lemma BecomesUnique(e: Values, changes: seq<Change>, changes': seq<Change>, x: Values, y: Values)
    requires Becomes(e, changes, x) && Becomes(e, changes', y) && forall c :: c in changes <==> c in changes'
    ensures x == y
  {
    forall k ensures Get(x, k) == Get(y, k) {
      if c :| c in changes && KeyOf(c) == k {
        assert Effect(Get(e, k), c) == Some(Get(x, k));
      }
    }
    SameGets(x, y);
  }

  lemma SameGets(x: Values, y: Values)
    requires forall k :: Get(x, k) == Get(y, k)
    ensures x == y
  {
    forall k ensures (k in x <==> k in y) && (k in x ==> x[k] == y[k]) {
      assert Get(x, k) == Get(y, k);
    }
  }

  /** The order of such changes does not matter. */
  lemma ChangesCommute(e: Values, changes: seq<Change>, changes': seq<Change>)
    requires DistinctKeys(changes) && DistinctKeys(changes') && forall c :: c in changes <==> c in changes'
    ensures ApplyAll(e, changes) == ApplyAll(e, changes')
  {
    ApplyIsPointwise(e, changes);
    ApplyIsPointwise(e, changes');
    hide ApplyAll, Becomes;
    if ApplyAll(e, changes).Some? {
      BecomesUnique(e, changes, changes', ApplyAll(e, changes).value, ApplyAll(e, changes').value);
    }
  }

  // --- Diff, then apply -----------------------------------------------------------------

  /** The attribute is different on the two sides, as far as the joined text can tell. */
  predicate Differs(before: Attributes, after: Attributes, k: string) {
    var b, a := Get(ByLower(before), k), Get(ByLower(after), k);
    b.Some? != a.Some? || (b.Some? && a.Some? && Join(b.value, "\n") != Join(a.value, "\n"))
  }

  predicate NoEmptyLists(attrs: Attributes) {
    forall i :: 0 <= i < |attrs| ==> attrs[i].1 != []
  }

  lemma {:induction false} ByLowerIs(attrs: Attributes, k: string)
    ensures k in ByLower(attrs) <==> exists i :: 0 <= i < |attrs| && Lower(attrs[i].0) == k
    ensures k in ByLower(attrs) ==> exists i :: 0 <= i < |attrs| && ByLower(attrs)[k] == attrs[i].1
  {
    if attrs != [] {
      var front := attrs[..|attrs| - 1];
      ByLowerIs(front, k);
      assert forall i :: 0 <= i < |front| ==> front[i] == attrs[i];
      assert attrs[|attrs| - 1].0 == attrs[|attrs| - 1].0;
    }
  }

  lemma {:induction false} NameOfIs(attrs: Attributes, k: string)
    requires exists i :: 0 <= i < |attrs| && Lower(attrs[i].0) == k
    ensures Lower(NameOf(attrs, k)) == k
  {
    if Lower(attrs[0].0) != k {
      var i :| 0 <= i < |attrs| && Lower(attrs[i].0) == k;
      assert attrs[1..][i - 1] == attrs[i];
      NameOfIs(attrs[1..], k);
    }
  }

  /** The change made for a name is the right one: it turns the old values into the new ones. */
  lemma ChangeForIsRight(key: string, before: Attributes, after: Attributes)
    requires NoEmptyLists(after)
    ensures var k := Lower(key);
            && (!Differs(before, after, k) ==> ChangeFor(key, before, after) == [])
            && (Differs(before, after, k) ==>
                  && |ChangeFor(key, before, after)| == 1 && KeyOf(ChangeFor(key, before, after)[0]) == k
                  && Effect(Get(ByLower(before), k), ChangeFor(key, before, after)[0]) == Some(Get(ByLower(after), k)))
  {
    var k := Lower(key);
    ByLowerIs(before, k);
    ByLowerIs(after, k);
    if k in ByLower(after) {
      NameOfIs(after, k);
    }
    hide ByLower, NameOf, Join, Remaining;
  }

  /** A change list with at most one, and the right, change for each attribute not yet seen. */
  predicate Right(changes: seq<Change>, seen: set<string>, before: Attributes, after: Attributes) {
    DistinctKeys(changes)
    && forall c :: c in changes ==>
         KeyOf(c) !in seen && Differs(before, after, KeyOf(c))
         && Effect(Get(ByLower(before), KeyOf(c)), c) == Some(Get(ByLower(after), KeyOf(c)))
  }

  lemma ConsDistinct(c: Change, rest: seq<Change>)
    requires DistinctKeys(rest) && forall r :: r in rest ==> KeyOf(r) != KeyOf(c)
    ensures DistinctKeys([c] + rest)
  {
    hide KeyOf;
    assert forall i :: 0 <= i < |rest| ==> rest[i] in rest;
  }

  lemma {:induction false} ChangesAreRight(keys: seq<string>, seen: set<string>, before: Attributes, after: Attributes)
    requires NoEmptyLists(after)
    ensures Right(ChangesFor(keys, seen, before, after), seen, before, after)
  {
    if keys != [] && Lower(keys[0]) in seen {
      ChangesAreRight(keys[1..], seen, before, after);
    } else if keys != [] {
      var k := Lower(keys[0]);
      var first := ChangeFor(keys[0], before, after);
      var rest := ChangesFor(keys[1..], seen + {k}, before, after);
      ChangesAreRight(keys[1..], seen + {k}, before, after);
      ChangeForIsRight(keys[0], before, after);
      assert ChangesFor(keys, seen, before, after) == first + rest;
      hide ChangesFor, ChangeFor, Effect, Differs, Get, ByLower, KeyOf, NoEmptyLists;
      if Differs(before, after, k) {
        assert first == [first[0]];
        ConsDistinct(first[0], rest);
      } else {
        assert [] + rest == rest;
      }
    }
  }

  lemma {:induction false} DifferencesAreCovered(keys: seq<string>, seen: set<string>, before: Attributes, after: Attributes, k: string)
    requires NoEmptyLists(after) && Differs(before, after, k) && k !in seen
    requires exists i :: 0 <= i < |keys| && Lower(keys[i]) == k
    ensures exists c :: c in ChangesFor(keys, seen, before, after) && KeyOf(c) == k
  {
    var i :| 0 <= i < |keys| && Lower(keys[i]) == k;
    ChangeForIsRight(keys[0], before, after);
    var later := if Lower(keys[0]) in seen then seen else seen + {Lower(keys[0])};
    var rest := ChangesFor(keys[1..], later, before, after);
    if Lower(keys[0]) == k {
      var c := ChangeFor(keys[0], before, after)[0];
      assert c in ChangesFor(keys, seen, before, after) && KeyOf(c) == k;
    } else {
      assert keys[1..][i - 1] == keys[i];
      DifferencesAreCovered(keys[1..], later, before, after, k);
      var c :| c in rest && KeyOf(c) == k;
      assert c in ChangesFor(keys, seen, before, after);
    }
  }

  lemma NamesIndex(before: Attributes, after: Attributes, i: nat)
    ensures i < |before| ==> (Names(before) + Names(after))[i] == before[i].0
    ensures i < |after| ==> (Names(before) + Names(after))[|before| + i] == after[i].0
  {
  }

  lemma DifferenceHasName(before: Attributes, after: Attributes, k: string) returns (i: nat)
    requires Differs(before, after, k)
    ensures var keys := Names(before) + Names(after);
            i < |keys| && Lower(keys[i]) == k
  {
    ByLowerIs(before, k);
    ByLowerIs(after, k);
    assert k in ByLower(before) || k in ByLower(after);
    assert |Names(before)| == |before| && |Names(after)| == |after|;
    hide ByLower, Lower, Names;
    if k in ByLower(before) {
      i :| 0 <= i < |before| && Lower(before[i].0) == k;
      NamesIndex(before, after, i);
    } else {
      var j :| 0 <= j < |after| && Lower(after[j].0) == k;
      NamesIndex(before, after, j);
      i := |before| + j;
    }
  }

  /** The request is always accepted, touches each attribute at most once, and changes exactly
      the attributes that differ into what they should be. */
  lemma DiffApplies(before: Attributes, after: Attributes)
    requires NoEmptyLists(after)
    ensures DistinctKeys(Diff(before, after))
    ensures ApplyAll(ByLower(before), Diff(before, after)).Some?
    ensures var e' := ApplyAll(ByLower(before), Diff(before, after)).value;
            forall k :: (Get(e', k) == if Differs(before, after, k) then Get(ByLower(after), k) else Get(ByLower(before), k))
  {
    var e, changes := ByLower(before), Diff(before, after);
    ChangesAreRight(Names(before) + Names(after), {}, before, after);
    assert Right(changes, {}, before, after);
    ApplyIsPointwise(e, changes);
    var e' := ApplyAll(e, changes).value;
    hide ApplyAll, Diff, Differs, Effect, Get, ByLower, NoEmptyLists, DistinctKeys;
    forall k ensures Get(e', k) == if Differs(before, after, k) then Get(ByLower(after), k) else Get(e, k) {
      if Differs(before, after, k) {
        DiffCovers(before, after, k);
        var c :| c in changes && KeyOf(c) == k;
        assert Effect(Get(e, k), c) == Some(Get(e', k));
      }
    }
  }

  lemma DiffCovers(before: Attributes, after: Attributes, k: string)
    requires NoEmptyLists(after) && Differs(before, after, k)
    ensures exists c :: c in Diff(before, after) && KeyOf(c) == k
  {
    var i := DifferenceHasName(before, after, k);
    DifferencesAreCovered(Names(before) + Names(after), {}, before, after, k);
  }

  /** The text comparison sees every difference between lists that both sides have. */
  predicate JoinTellsApart(before: Attributes, after: Attributes) {
    forall k :: k in ByLower(before) && k in ByLower(after)
      && Join(ByLower(before)[k], "\n") == Join(ByLower(after)[k], "\n")
      ==> ByLower(before)[k] == ByLower(after)[k]
  }

  /** Applying the changes to the old entry yields the new one exactly when no two different value
      lists of a common attribute read the same when joined by newlines. */
  lemma DiffThenApply(before: Attributes, after: Attributes)
    requires NoEmptyLists(after)
    ensures ApplyAll(ByLower(before), Diff(before, after)) == Some(ByLower(after)) <==> JoinTellsApart(before, after)
  {
    DiffApplies(before, after);
    var e' := ApplyAll(ByLower(before), Diff(before, after)).value;
    hide ApplyAll, Diff, ByLower, Join, NoEmptyLists, DistinctKeys;
    if JoinTellsApart(before, after) {
      forall k ensures Get(e', k) == Get(ByLower(after), k) {
      }
      SameGets(e', ByLower(after));
    } else {
      var k :| k in ByLower(before) && k in ByLower(after)
               && Join(ByLower(before)[k], "\n") == Join(ByLower(after)[k], "\n") && ByLower(before)[k] != ByLower(after)[k];
      assert !Differs(before, after, k);
      assert Get(e', k) == Get(ByLower(before), k);
    }
  }

  // --- Values without newlines ----------------------------------------------------------

  predicate NoNewlines(values: seq<string>) {
    values != [] && forall i :: 0 <= i < |values| ==> '\n' !in values[i]
  }

  lemma JoinNext(values: seq<string>)
    requires |values| > 1
    ensures Join(values, "\n") == values[0] + ['\n'] + Join(values[1..], "\n")
  {
  }

  lemma JoinShape(values: seq<string>)
    requires NoNewlines(values)
    ensures IndexOf(Join(values, "\n"), '\n') == if |values| > 1 then |values[0]| else -1
    ensures |values| > 1 ==>
      var i := |values[0]|;
      Join(values, "\n")[..i] == values[0] && Join(values, "\n")[i + 1..] == Join(values[1..], "\n")
  {
    var text := Join(values, "\n");
    if |values| > 1 {
      JoinNext(values);
      IndexOfAt(values[0], '\n', Join(values[1..], "\n"));
    } else {
      var i := IndexOf(text, '\n');
      assert i >= 0 ==> '\n' in text;
    }
  }

  /** Joining loses nothing when no value holds a newline. */
  lemma {:induction false} JoinIsInjective(x: seq<string>, y: seq<string>)
    requires NoNewlines(x) && NoNewlines(y) && Join(x, "\n") == Join(y, "\n")
    ensures x == y
  {
    JoinShape(x);
    JoinShape(y);
    if |x| > 1 {
      JoinIsInjective(x[1..], y[1..]);
      assert x == [x[0]] + x[1..] && y == [y[0]] + y[1..];
    } else {
      assert x == [x[0]] && y == [y[0]];
    }
  }

  /** Entries whose value lists are not empty and hold no newlines reach their target. */
  lemma DiffReachesTarget(before: Attributes, after: Attributes)
    requires forall i :: 0 <= i < |before| ==> NoNewlines(before[i].1)
    requires forall i :: 0 <= i < |after| ==> NoNewlines(after[i].1)
    ensures ApplyAll(ByLower(before), Diff(before, after)) == Some(ByLower(after))
  {
    assert NoEmptyLists(after);
    hide ApplyAll, Diff, ByLower, Join, NoNewlines;
    forall k | k in ByLower(before) && k in ByLower(after)
               && Join(ByLower(before)[k], "\n") == Join(ByLower(after)[k], "\n")
      ensures ByLower(before)[k] == ByLower(after)[k]
    {
      ByLowerIs(before, k);
      ByLowerIs(after, k);
      JoinIsInjective(ByLower(before)[k], ByLower(after)[k]);
    }
    DiffThenApply(before, after);
  }

  lemma {:induction false} NoChanges(keys: seq<string>, seen: set<string>, before: Attributes, after: Attributes)
    requires forall i :: 0 <= i < |keys| ==> ChangeFor(keys[i], before, after) == []
    ensures ChangesFor(keys, seen, before, after) == []
  {
    hide ChangeFor;
    if keys != [] {
      NoChanges(keys[1..], seen, before, after);
      NoChanges(keys[1..], seen + {Lower(keys[0])}, before, after);
    }
  }

  lemma OneAttribute(values: seq<string>)
    ensures ByLower([("a", values)]) == map["a" := values] && Names([("a", values)]) == ["a"]
  {
    var attrs := [("a", values)];
    assert attrs[..0] == [] && Lower("a") == "a";
  }

  lemma JoinedTheSame()
    ensures Join(["x\ny"], "\n") == Join(["x", "y"], "\n")
  {
    assert ["x", "y"][1..] == ["y"];
    assert "x" + "\n" + "y" == "x\ny";
  }

  /** Splitting one value at its newline goes unnoticed. */
  lemma NewlineHidesChange()
    ensures Diff([("a", ["x\ny"])], [("a", ["x", "y"])]) == []
    ensures ByLower([("a", ["x\ny"])]) != ByLower([("a", ["x", "y"])])
  {
    var before, after := [("a", ["x\ny"])], [("a", ["x", "y"])];
    OneAttribute(["x\ny"]);
    OneAttribute(["x", "y"]);
    JoinedTheSame();
    assert Lower("a") == "a";
    hide ByLower, Names, Join, Lower, ChangesFor;
    assert ChangeFor("a", before, after) == [];
    NoChanges(Names(before) + Names(after), {}, before, after);
    assert |["x\ny"]| != |["x", "y"]|;
  }
}
