/** The log panel's incremental reading of the ring: frontend/src/lib/logFeed.ts. */
module LogFeed {
  import opened LogBuffer

  predicate Increasing(s: seq<Entry>) {
    forall i, j :: 0 <= i < j < |s| ==> s[i].seqNo < s[j].seqNo
  }

  function InsertBySeq(x: Entry, s: seq<Entry>): seq<Entry> {
    if s == [] || x.seqNo <= s[0].seqNo then [x] + s else [s[0]] + InsertBySeq(x, s[1..])
  }

  /** sort((a, b) => a.seq - b.seq), which is stable */
  function SortBySeq(s: seq<Entry>): seq<Entry> {
    if s == [] then [] else InsertBySeq(s[0], SortBySeq(s[1..]))
  }

  predicate HasSeq(s: seq<Entry>, n: nat) {
    exists i :: 0 <= i < |s| && s[i].seqNo == n
  }

  /** The entries whose number has not been seen, the first of each number. */
  function Unknown(s: seq<Entry>, known: set<nat>): seq<Entry> {
    if s == [] then []
    else if s[0].seqNo in known then Unknown(s[1..], known)
    else [s[0]] + Unknown(s[1..], known + {s[0].seqNo})
  }

  function Seqs(s: seq<Entry>): set<nat> {
    set i | 0 <= i < |s| :: s[i].seqNo
  }

  /** Everything the two lists hold, the first list winning, by number. */
  function Merged(items: seq<Entry>, tail: seq<Entry>): seq<Entry> {
    SortBySeq(items + Unknown(SortBySeq(tail), Seqs(items)))
  }

  lemma UnknownStep(s: seq<Entry>, i: nat, known: set<nat>)
    requires i < |s|
    ensures Unknown(s[i..], known) == if s[i].seqNo in known then Unknown(s[i + 1..], known)
                                      else [s[i]] + Unknown(s[i + 1..], known + {s[i].seqNo})
  {
    assert s[i..][1..] == s[i + 1..];
  }

  method MergeLogTail(items: seq<Entry>, tail: seq<Entry>, max: nat) returns (r: seq<Entry>)
    ensures r == Last(Merged(items, tail), max)
  {
    var known := Seqs(items);
    var merged := items;
    var sorted := SortBySeq(tail);
    ghost var rest := Unknown(sorted, known);
    assert sorted[0..] == sorted;
    for i := 0 to |sorted|
      invariant items + Unknown(sorted, Seqs(items)) == merged + rest && rest == Unknown(sorted[i..], known)
    {
      hide Unknown, SortBySeq, Seqs;
      UnknownStep(sorted, i, known);
      if sorted[i].seqNo in known {
        continue;
      }
      ghost var before := merged;
      known := known + {sorted[i].seqNo};
      rest := Unknown(sorted[i + 1..], known);
      assert before + ([sorted[i]] + rest) == before + [sorted[i]] + rest;
      merged := merged + [sorted[i]];
    }
    assert merged + [] == merged;
    merged := SortBySeq(merged);
    r := if |merged| > max then merged[|merged| - max..] else merged;
  }

  /** Where the next poll starts on a list in order: behind its last entry. */
  function CursorOf(items: seq<Entry>): nat {
    if items == [] then 0 else items[|items| - 1].seqNo
  }

  method NextLogCursor(items: seq<Entry>) returns (cursor: nat)
    ensures forall i :: 0 <= i < |items| ==> items[i].seqNo <= cursor
    ensures cursor == 0 || exists i :: 0 <= i < |items| && items[i].seqNo == cursor
    ensures Increasing(items) ==> cursor == CursorOf(items)
  {
    cursor := 0;
    for k := 0 to |items|
      invariant forall i :: 0 <= i < k ==> items[i].seqNo <= cursor
      invariant cursor == 0 || exists i :: 0 <= i < k && items[i].seqNo == cursor
    {
      if items[k].seqNo > cursor {
        cursor := items[k].seqNo;
      }
    }
  }

  // --- Merging --------------------------------------------------------------------------

  lemma {:induction false} InsertKeeps(x: Entry, s: seq<Entry>, y: Entry)
    ensures y in InsertBySeq(x, s) <==> y == x || y in s
  {
    if s != [] && x.seqNo > s[0].seqNo {
      InsertKeeps(x, s[1..], y);
      assert s == [s[0]] + s[1..];
    }
  }

  lemma {:induction false} InsertIncreases(x: Entry, s: seq<Entry>)
    requires Increasing(s) && !HasSeq(s, x.seqNo)
    ensures Increasing(InsertBySeq(x, s))
  {
    if s != [] && x.seqNo > s[0].seqNo {
      var rest := InsertBySeq(x, s[1..]);
      assert forall i :: 0 <= i < |s| - 1 ==> s[1..][i] == s[i + 1];
      InsertIncreases(x, s[1..]);
      forall i | 0 <= i < |rest| ensures s[0].seqNo < rest[i].seqNo {
        InsertKeeps(x, s[1..], rest[i]);
      }
    } else if s != [] {
      assert x.seqNo != s[0].seqNo;
    }
  }

  predicate DistinctSeqs(s: seq<Entry>) {
    forall i, j :: 0 <= i < j < |s| ==> s[i].seqNo != s[j].seqNo
  }

  lemma {:induction false} SortKeeps(s: seq<Entry>, y: Entry)
    ensures y in SortBySeq(s) <==> y in s
  {
    if s != [] {
      SortKeeps(s[1..], y);
      InsertKeeps(s[0], SortBySeq(s[1..]), y);
      assert s == [s[0]] + s[1..];
    }
  }

  lemma {:induction false} SortIncreases(s: seq<Entry>)
    requires DistinctSeqs(s)
    ensures Increasing(SortBySeq(s))
  {
    if s != [] {
      var rest := s[1..];
      SortIncreases(rest);
      forall i | 0 <= i < |SortBySeq(rest)| ensures SortBySeq(rest)[i].seqNo != s[0].seqNo {
        SortKeeps(rest, SortBySeq(rest)[i]);
        var k :| 0 <= k < |rest| && rest[k] == SortBySeq(rest)[i];
        assert s[k + 1] == rest[k];
      }
      InsertIncreases(s[0], SortBySeq(rest));
    }
  }

  lemma {:induction false} SortOfIncreasing(s: seq<Entry>)
    requires Increasing(s)
    ensures SortBySeq(s) == s
  {
    if s != [] {
      SortOfIncreasing(s[1..]);
      assert s == [s[0]] + s[1..];
      assert |s| > 1 ==> s[1..][0] == s[1];
    }
  }

  lemma {:induction false} UnknownMembers(s: seq<Entry>, known: set<nat>, x: Entry)
    ensures x in Unknown(s, known) ==> x in s && x.seqNo !in known
  {
    if s != [] {
      assert s == [s[0]] + s[1..];
      UnknownMembers(s[1..], known, x);
      UnknownMembers(s[1..], known + {s[0].seqNo}, x);
    }
  }

  lemma {:induction false} UnknownDistinct(s: seq<Entry>, known: set<nat>)
    ensures DistinctSeqs(Unknown(s, known))
  {
    if s != [] {
      if s[0].seqNo in known {
        UnknownDistinct(s[1..], known);
      } else {
        var rest := Unknown(s[1..], known + {s[0].seqNo});
        UnknownDistinct(s[1..], known + {s[0].seqNo});
        forall i | 0 <= i < |rest| ensures rest[i].seqNo != s[0].seqNo {
          UnknownMembers(s[1..], known + {s[0].seqNo}, rest[i]);
        }
        assert Unknown(s, known) == [s[0]] + rest;
        hide Unknown;
      }
    }
  }

  lemma HasSeqTail(x: Entry, s: seq<Entry>, n: nat)
    ensures HasSeq([x] + s, n) <==> x.seqNo == n || HasSeq(s, n)
  {
    var all := [x] + s;
    if HasSeq(s, n) {
      var i :| 0 <= i < |s| && s[i].seqNo == n;
      assert all[i + 1].seqNo == n;
    }
    assert all[0] == x;
    if HasSeq(all, n) && x.seqNo != n {
      var i :| 0 <= i < |all| && all[i].seqNo == n;
      assert s[i - 1].seqNo == n;
    }
  }

  lemma {:induction false} UnknownCovers(s: seq<Entry>, known: set<nat>, x: Entry)
    requires x in s && x.seqNo !in known
    ensures HasSeq(Unknown(s, known), x.seqNo)
  {
    assert s == [s[0]] + s[1..];
    if s[0].seqNo in known {
      UnknownCovers(s[1..], known, x);
    } else {
      var rest := Unknown(s[1..], known + {s[0].seqNo});
      HasSeqTail(s[0], rest, x.seqNo);
      if x.seqNo != s[0].seqNo {
        UnknownCovers(s[1..], known + {s[0].seqNo}, x);
      }
    }
  }

  /** A merge never repeats or reorders: whatever arrives, in whatever order and however often, the
      panel's list stays strictly increasing, keeps what it had, and takes up each new number once. */
  lemma MergeIsOrderedUnion(items: seq<Entry>, tail: seq<Entry>, x: Entry)
    requires Increasing(items)
    ensures Increasing(Merged(items, tail))
    ensures x in Merged(items, tail) ==> x in items || x in tail
    ensures x in items ==> x in Merged(items, tail)
    ensures x in tail ==> HasSeq(Merged(items, tail), x.seqNo)
  {
    var sorted := SortBySeq(tail);
    var added := Unknown(sorted, Seqs(items));
    var all := items + added;
    assert Merged(items, tail) == SortBySeq(all);
    hide Merged, SortBySeq, Unknown, HasSeq;
    UnknownDistinct(sorted, Seqs(items));
    AllDistinct(items, sorted);
    SortIncreases(all);
    SortKeeps(all, x);
    SortKeeps(tail, x);
    UnknownMembers(sorted, Seqs(items), x);
    if x in tail {
      if x.seqNo in Seqs(items) {
        var i :| 0 <= i < |items| && items[i].seqNo == x.seqNo;
        SortKeeps(all, items[i]);
        Appears(Merged(items, tail), items[i]);
      } else {
        UnknownCovers(sorted, Seqs(items), x);
        var i := WithSeq(added, x.seqNo);
        SortKeeps(all, added[i]);
        Appears(Merged(items, tail), added[i]);
      }
    }
  }

  lemma WithSeq(s: seq<Entry>, n: nat) returns (i: nat)
    requires HasSeq(s, n)
    ensures i < |s| && s[i].seqNo == n
  {
    i :| 0 <= i < |s| && s[i].seqNo == n;
  }

  lemma Appears(s: seq<Entry>, x: Entry)
    requires x in s
    ensures HasSeq(s, x.seqNo)
  {
  }

  lemma AllDistinct(items: seq<Entry>, sorted: seq<Entry>)
    requires Increasing(items) && DistinctSeqs(Unknown(sorted, Seqs(items)))
    ensures DistinctSeqs(items + Unknown(sorted, Seqs(items)))
  {
    hide Unknown;
    var added := Unknown(sorted, Seqs(items));
    var all := items + added;
    forall i, j | 0 <= i < j < |all| ensures all[i].seqNo != all[j].seqNo {
      if i < |items| <= j {
        UnknownMembers(sorted, Seqs(items), all[j]);
        assert all[j] in added && all[i].seqNo in Seqs(items);
      }
    }
  }

  // --- Polling --------------------------------------------------------------------------

  /** A panel that holds true entries of the log, in order. */
  predicate Faithful(items: seq<Entry>, all: seq<Entry>) {
    Increasing(items) && forall i :: 0 <= i < |items| ==> 0 < items[i].seqNo <= |all| && items[i] == all[items[i].seqNo - 1]
  }

  /** One poll: ask for what lies behind the cursor, merge it in. */
  function Poll(items: seq<Entry>, all: seq<Entry>, max: nat, limit: int, panelMax: nat): seq<Entry> {
    Last(Merged(items, TailOf(all, max, CursorOf(items), limit)), panelMax)
  }

  lemma NothingKnown(s: seq<Entry>, known: set<nat>)
    requires Increasing(s) && forall i :: 0 <= i < |s| ==> s[i].seqNo !in known
    ensures Unknown(s, known) == s
  {
    if s != [] {
      NothingKnown(s[1..], known + {s[0].seqNo});
      assert s == [s[0]] + s[1..];
    }
  }

  lemma RunNumbers(items: seq<Entry>, all: seq<Entry>, from: nat, to: nat)
    requires Faithful(items, all) && Numbered(all) && CursorOf(items) <= from <= to <= |all|
    ensures var run := all[from..to];
            Increasing(run) && forall i :: 0 <= i < |run| ==> run[i].seqNo == from + i + 1 && run[i].seqNo !in Seqs(items)
  {
    var run := all[from..to];
    forall i | 0 <= i < |run| ensures run[i].seqNo == from + i + 1 {
      assert run[i] == all[from + i];
    }
  }

  lemma RunStaysFaithful(items: seq<Entry>, all: seq<Entry>, from: nat, to: nat)
    requires Faithful(items, all) && Numbered(all) && CursorOf(items) <= from <= to <= |all|
    ensures Faithful(items + all[from..to], all) && Increasing(items + all[from..to])
  {
    RunNumbers(items, all, from, to);
    var merged, run := items + all[from..to], all[from..to];
    forall i | 0 <= i < |merged| ensures 0 < merged[i].seqNo <= |all| && merged[i] == all[merged[i].seqNo - 1] {
      if i >= |items| {
        assert merged[i] == run[i - |items|] == all[from + i - |items|];
      }
    }
  }

  /** Merging a run of the log that lies behind the cursor appends it. */
  lemma RunIsAppended(items: seq<Entry>, all: seq<Entry>, from: nat, to: nat)
    requires Faithful(items, all) && Numbered(all) && CursorOf(items) <= from <= to <= |all|
    ensures Merged(items, all[from..to]) == items + all[from..to]
  {
    RunNumbers(items, all, from, to);
    RunStaysFaithful(items, all, from, to);
    hide SortBySeq, Unknown, Seqs, Increasing, Faithful, Numbered, CursorOf;
    SortOfIncreasing(all[from..to]);
    NothingKnown(all[from..to], Seqs(items));
    SortOfIncreasing(items + all[from..to]);
  }

  /** A poll appends a run of the log to the panel's list: it starts right behind the cursor, or,
      when that has been overwritten, with the oldest entry still held. */
  lemma PollAppendsRun(items: seq<Entry>, all: seq<Entry>, max: nat, limit: int) returns (from: nat, to: nat)
    requires Faithful(items, all) && Numbered(all) && max > 0
    ensures from <= to <= |all| && Merged(items, TailOf(all, max, CursorOf(items), limit)) == items + all[from..to]
    ensures from == CursorOf(items) || (from > CursorOf(items) && from == |all| - max)
    ensures to == |all| || to > from
    ensures Faithful(items + all[from..to], all)
  {
    assert CursorOf(items) <= |all|;
    hide Merged, TailOf, Numbered, Faithful;
    from, to := TailIsRun(all, max, CursorOf(items), limit);
    RunIsAppended(items, all, from, to);
    RunStaysFaithful(items, all, from, to);
  }

  lemma CursorAfterRun(items: seq<Entry>, all: seq<Entry>, from: nat, to: nat, n: nat)
    requires Faithful(items, all) && Numbered(all) && CursorOf(items) <= from <= to <= |all|
    ensures CursorOf(items + all[from..to]) == if from == to then CursorOf(items) else to
    ensures from < n <= to ==> (items + all[from..to])[|items| + n - 1 - from].seqNo == n
  {
    if from == to {
      assert items + all[from..to] == items;
    }
  }

  /** After any poll the panel is in order, without duplicates and true to the log. Every entry
      that the new cursor has passed is there, unless it was overwritten before this poll, was
      already missing, or has been pushed out by newer ones at the panel's own bound. */
  lemma PollMissesOnlyOverwritten(items: seq<Entry>, all: seq<Entry>, max: nat, limit: int, panelMax: nat, n: nat)
    requires Faithful(items, all) && Numbered(all) && max > 0 && panelMax > 0
    ensures var after := Poll(items, all, max, limit, panelMax);
            && Faithful(after, all) && |after| <= panelMax && CursorOf(after) >= CursorOf(items)
            && (|all| > CursorOf(items) ==> CursorOf(after) > CursorOf(items))
            && (HasSeq(items, n) || (CursorOf(items) < n <= CursorOf(after) && n > |all| - max)
                ==> HasSeq(after, n) || (|after| == panelMax && n < after[0].seqNo))
  {
    var from, to := PollAppendsRun(items, all, max, limit);
    var merged := items + all[from..to];
    assert Poll(items, all, max, limit, panelMax) == Last(merged, panelMax);
    assert Increasing(merged);
    CursorAfterRun(items, all, from, to, n);
    hide Merged, TailOf, Poll, Last, HasSeq, Faithful, CursorOf;
    LastIsFaithful(merged, all, panelMax);
    if CursorOf(items) < n <= CursorOf(Last(merged, panelMax)) && n > |all| - max {
      KeptOrPushedOut(merged, panelMax, |items| + n - 1 - from);
    }
    if HasSeq(items, n) {
      var i := WithSeq(items, n);
      assert merged[i] == items[i];
      KeptOrPushedOut(merged, panelMax, i);
    }
  }

  lemma LastIsFaithful(s: seq<Entry>, all: seq<Entry>, n: nat)
    requires Faithful(s, all) && n > 0
    ensures Faithful(Last(s, n), all) && |Last(s, n)| <= n && CursorOf(Last(s, n)) == CursorOf(s)
  {
  }

  lemma KeptOrPushedOut(s: seq<Entry>, n: nat, i: nat)
    requires Increasing(s) && n > 0 && i < |s|
    ensures HasSeq(Last(s, n), s[i].seqNo) || (|Last(s, n)| == n && s[i].seqNo < Last(s, n)[0].seqNo)
  {
    var r := Last(s, n);
    if |s| > n && i >= |s| - n {
      assert r[i - (|s| - n)] == s[i];
    }
  }
}
