/** The ring of recent log entries: backend/internal/logbuf/logbuf.go. */
module LogBuffer {

  const DEFAULT_MAX := 1000

  /** text stands for the fields that are only carried along. */
  datatype Entry = Entry(seqNo: nat, at: int, text: string)

  function Last<T>(s: seq<T>, n: nat): seq<T> {
    if |s| <= n then s else s[|s| - n..]
  }

  function Take<T>(s: seq<T>, n: nat): seq<T> {
    if |s| <= n then s else s[..n]
  }

  function Newer(s: seq<Entry>, after: nat): seq<Entry> {
    if s == [] then [] else (if s[0].seqNo > after then [s[0]] else []) + Newer(s[1..], after)
  }

  /** The entries carry the numbers 1, 2, 3 and so on. */
  predicate Numbered(all: seq<Entry>) {
    forall i :: 0 <= i < |all| ==> all[i].seqNo == i + 1
  }

  function Limit(limit: int, max: nat): nat {
    if limit <= 0 || limit > max then max else limit
  }

  /** What a reader is shown: of the entries still held, the oldest ones it has not seen yet. */
  function TailOf(all: seq<Entry>, max: nat, after: nat, limit: int): seq<Entry> {
    Take(Newer(Last(all, max), after), Limit(limit, max))
  }

  /** The slots of a ring hold the last entries: from next around to next once it is full. */
  predicate Ring(slots: seq<Entry>, next: nat, full: bool, all: seq<Entry>) {
    && next < |slots|
    && (if full then |all| >= |slots| && slots[next..] + slots[..next] == all[|all| - |slots|..]
        else next == |all| && slots[..next] == all)
  }

  function Turn(next: nat, max: nat): nat {
    if next + 1 == max then 0 else next + 1
  }

  /** Writing the next slot makes the new entry one of those held, and drops the oldest if full. */
  lemma WriteFull(slots: seq<Entry>, next: nat, all: seq<Entry>, e: Entry)
    requires Ring(slots, next, true, all)
    ensures Ring(slots[next := e], Turn(next, |slots|), true, all + [e])
  {
    var now := slots[next := e];
    var held := all[|all| - |slots|..];
    assert slots[next..] == [slots[next]] + slots[next + 1..];
    assert held[1..] == slots[next + 1..] + slots[..next];
    assert (all + [e])[|all| + 1 - |slots|..] == held[1..] + [e];
    assert now[next + 1..] == slots[next + 1..] && now[..next + 1] == slots[..next] + [e];
    assert now[next + 1..] + now[..next + 1] == held[1..] + [e];
    if next + 1 == |slots| {
      assert now[0..] + now[..0] == now[..next + 1] && now[next + 1..] + now[..next + 1] == now[..next + 1];
    }
  }

  lemma WriteFilling(slots: seq<Entry>, next: nat, all: seq<Entry>, e: Entry)
    requires Ring(slots, next, false, all)
    ensures Ring(slots[next := e], Turn(next, |slots|), next + 1 == |slots|, all + [e])
  {
    var now := slots[next := e];
    assert now[..next + 1] == slots[..next] + [e];
    if next + 1 == |slots| {
      assert now[0..] + now[..0] == now[..next + 1] && (all + [e])[0..] == all + [e];
    }
  }

  lemma Write(slots: seq<Entry>, next: nat, full: bool, all: seq<Entry>, e: Entry)
    requires Ring(slots, next, full, all)
    ensures Ring(slots[next := e], Turn(next, |slots|), full || next + 1 == |slots|, all + [e])
  {
    if full {
      WriteFull(slots, next, all, e);
    } else {
      WriteFilling(slots, next, all, e);
    }
  }

  lemma NumberedMore(all: seq<Entry>, at: int, text: string)
    requires Numbered(all)
    ensures Numbered(all + [Entry(|all| + 1, at, text)])
  {
  }

  class Buffer {
    const max: nat
    var seqNo: nat
    var buf: array<Entry>
    var next: nat
    var full: bool
    /** Everything ever appended. */
    ghost var all: seq<Entry>

    constructor (max: int)
      ensures Valid() && fresh(buf) && all == [] && this.max == if max <= 0 then DEFAULT_MAX else max
    {
      this.max := if max <= 0 then DEFAULT_MAX else max;
      buf := new Entry[if max <= 0 then DEFAULT_MAX else max](i => Entry(0, 0, ""));
      seqNo, next, full := 0, 0, false;
      all := [];
    }

    ghost predicate Valid()
      reads this, buf
    {
      0 < max == buf.Length && seqNo == |all| && Numbered(all) && Ring(buf[..], next, full, all)
    }

    method Append(text: string, now: int) returns (e: Entry)
      requires Valid()
      modifies this, buf
      ensures Valid() && buf == old(buf)
      ensures e == Entry(|old(all)| + 1, now, text) && all == old(all) + [e]
    {
      ghost var before, was, wasFull := buf[..], next, full;
      assert next < |before| == max && Turn(next, max) == if next + 1 == max then 0 else next + 1;
      NumberedMore(all, now, text);
      hide *;
      seqNo := seqNo + 1;
      e := Entry(seqNo, now, text);
      Write(before, next, full, all, e);
      buf[next] := e;
      assert buf[..] == before[was := e];
      all := all + [e];
      next := if next + 1 == max then 0 else next + 1;
      if next == 0 {
        full := true;
      }
      assert full == (wasFull || was + 1 == max);
      Holds();
    }

    lemma Holds()
      requires 0 < max == buf.Length && seqNo == |all| && Numbered(all) && Ring(buf[..], next, full, all)
      ensures Valid()
    {
    }

    /** Entry i of those held, counted from the oldest, and where the ring keeps it. */
    lemma HeldAt(i: nat)
      requires Valid() && i < if full then max else next
      ensures i < |Last(all, max)| == if full then max else next
      ensures var position := if full then (if next + i >= max then next + i - max else next + i) else i;
              position < buf.Length && buf[position] == Last(all, max)[i]
    {
      var slots := buf[..];
      if full {
        assert Last(all, max) == all[|all| - max..];
        assert (slots[next..] + slots[..next])[i] == if i < max - next then slots[next + i] else slots[next + i - max];
      } else {
        assert slots[..next][i] == slots[i];
      }
    }

    lemma HeldSize()
      requires Valid()
      ensures |Last(all, max)| == if full then max else next
    {
    }

    /** The entry at a distance from the oldest one. */
    method Held(start: nat, i: nat) returns (e: Entry)
      requires Valid() && start == (if full then next else 0) && i < if full then max else next
      ensures i < |Last(all, max)| && e == Last(all, max)[i]
    {
      HeldAt(i);
      hide Ring, Last, Numbered;
      e := buf[if start + i >= max then start + i - max else start + i];
    }

    method Tail(after: nat, limit: int) returns (out: seq<Entry>)
      requires Valid()
      ensures out == TailOf(all, max, after, limit)
    {
      HeldSize();
      assert TailOf(all, max, after, limit) == Take(Newer(Last(all, max), after), Limit(limit, max));
      hide *;
      var bound := Limit(limit, max);
      out := [];
      var start, count := 0, next;
      if full {
        start, count := next, max;
      }
      ghost var held := Last(all, max);
      ghost var rest := Newer(held, after);
      assert held[0..] == held && [] + rest == rest;
      var i := 0;
      while i < count && |out| < bound
        invariant 0 <= i <= count && |out| <= bound
        invariant Newer(held, after) == out + rest && rest == Newer(held[i..], after)
        decreases count - i
      {
        OneShown(held, i, after, out);
        var e := Held(start, i);
        rest := Newer(held[i + 1..], after);
        if e.seqNo > after {
          out := out + [e];
        }
        i := i + 1;
      }
      if i == count {
        NewerEnd(held, after);
      }
      TakeOf(out, rest, bound);
    }

    method Len() returns (n: nat)
      requires Valid()
      ensures n == |Last(all, max)|
    {
      n := if full then max else next;
    }
  }

  lemma OneShown(held: seq<Entry>, i: nat, after: nat, out: seq<Entry>)
    requires i < |held|
    ensures out + Newer(held[i..], after) == (if held[i].seqNo > after then out + [held[i]] else out) + Newer(held[i + 1..], after)
  {
    hide Newer;
    NewerStep(held, i, after);
    assert out + ([held[i]] + Newer(held[i + 1..], after)) == out + [held[i]] + Newer(held[i + 1..], after);
  }

  lemma NewerStep(s: seq<Entry>, i: nat, after: nat)
    requires i < |s|
    ensures Newer(s[i..], after) == (if s[i].seqNo > after then [s[i]] else []) + Newer(s[i + 1..], after)
    ensures s[i].seqNo <= after ==> Newer(s[i..], after) == Newer(s[i + 1..], after)
  {
    assert s[i..][1..] == s[i + 1..];
  }

  lemma TakeOf(out: seq<Entry>, rest: seq<Entry>, bound: nat)
    requires |out| <= bound && (rest == [] || |out| == bound)
    ensures Take(out + rest, bound) == out
  {
    assert (out + rest)[..|out|] == out;
    assert out + [] == out;
  }

  lemma NewerEnd(s: seq<Entry>, after: nat)
    ensures Newer(s[|s|..], after) == []
  {
  }

  /** Of numbered entries, those after a number are a run that reaches to the end. */
  lemma NewerIsSuffix(all: seq<Entry>, from: nat, after: nat)
    requires Numbered(all) && from <= |all|
    ensures var start := if after < from then from else if after < |all| then after else |all|;
            Newer(all[from..], after) == all[start..]
    decreases |all| - from
  {
    if from < |all| {
      assert all[from..][1..] == all[from + 1..];
      NewerIsSuffix(all, from + 1, after);
    }
  }

  /** Where the shown run starts and ends among everything ever appended; it is as long as the limit, the
      ring and the log allow. */
  lemma TailIsRun(all: seq<Entry>, max: nat, after: nat, limit: int) returns (from: nat, to: nat)
    requires Numbered(all) && max > 0
    ensures from <= to <= |all| && TailOf(all, max, after, limit) == all[from..to]
    ensures after <= |all| ==> from == after || (from > after && from == |all| - max)
    ensures to == |all| || to > from
    ensures to - from <= max && (limit > 0 ==> to - from <= limit)
    ensures to == |all| || to - from == max || (limit > 0 && to - from == limit)
  {
    var held := if |all| <= max then 0 else |all| - max;
    NewerIsSuffix(all, held, after);
    assert all[0..] == all;
    hide Newer, Numbered;
    from := if after < held then held else if after < |all| then after else |all|;
    var bound := Limit(limit, max);
    to := if |all| - from <= bound then |all| else from + bound;
    TakeIsRun(all, from, bound);
  }

  lemma TakeIsRun<T>(all: seq<T>, from: nat, bound: nat)
    requires from <= |all|
    ensures Take(all[from..], bound) == all[from..if |all| - from <= bound then |all| else from + bound]
  {
    if |all| - from > bound {
      assert all[from..][..bound] == all[from..from + bound];
    }
  }
}
