/** The sessions of the digest cursor, a bounded LRU table: backend/internal/mcp/cursor.go. */
module CursorStore {
  const DEFAULT_TTL := 600
  const DEFAULT_CAPACITY := 8
  const DEFAULT_MAX_ROWS := 10000
  const MAX_BATCH := 20

  /** One digest's rows, how far they have been read, and until when they may be. */
  datatype Session<R> = Session(rows: seq<R>, truncated: bool, offset: nat, expiresAt: int)

  // --- The simple table -----------------------------------------------------------------

  datatype Slot<R> = Slot(id: string, session: Session<R>)

  /** The sessions from least to most recently used. */
  type Table<R> = seq<Slot<R>>

  predicate Distinct<R>(t: Table<R>) {
    forall i, j :: 0 <= i < j < |t| ==> t[i].id != t[j].id
  }

  function LiveSlots<R>(t: Table<R>, now: int): Table<R> {
    if t == [] then []
    else (if now < t[0].session.expiresAt then [t[0]] else []) + LiveSlots(t[1..], now)
  }

  function Last<T>(s: seq<T>, n: nat): seq<T> {
    if |s| <= n then s else s[|s| - n..]
  }

  function Capped<R>(rows: seq<R>, n: nat): seq<R> {
    if |rows| <= n then rows else rows[..n]
  }

  /** A new session goes behind the live ones; the least recently used make room. */
  function TablePut<R>(t: Table<R>, slot: Slot<R>, capacity: nat, now: int): Table<R> {
    Last(LiveSlots(t, now) + [slot], capacity)
  }

  function Index<R>(t: Table<R>, id: string): (i: nat)
    ensures i <= |t| && (i < |t| ==> t[i].id == id) && forall k :: 0 <= k < i ==> t[k].id != id
  {
    if t == [] || t[0].id == id then 0 else 1 + Index(t[1..], id)
  }

  function Without<T>(s: seq<T>, i: nat): (r: seq<T>)
    requires i < |s|
    ensures |r| == |s| - 1 && forall k :: 0 <= k < |r| ==> r[k] == if k < i then s[k] else s[k + 1]
  {
    s[..i] + s[i + 1..]
  }

  datatype Lookup<R> = Unknown | Expired | Found(rows: seq<R>, offset: nat, nextOffset: nat, done: bool)

  function BatchSize(n: int): (size: nat)
    ensures 1 <= size <= MAX_BATCH && (1 <= n <= MAX_BATCH ==> size == n)
  {
    if n <= 0 || n > MAX_BATCH then MAX_BATCH else n
  }

  function Min(a: nat, b: nat): nat {
    if a < b then a else b
  }

  /** The window a read of n rows shows: from the offset asked for, or from where the last ended. */
  function Window<R>(s: Session<R>, n: int, offset: int): (r: Lookup<R>)
    ensures r.Found? && r.offset <= r.nextOffset <= |s.rows| && r.rows == s.rows[r.offset..r.nextOffset]
    ensures r.done <==> r.nextOffset == |s.rows|
    ensures !r.done ==> r.nextOffset > r.offset
    ensures 0 <= offset <= |s.rows| ==> r.offset == offset
    ensures offset < 0 && s.offset <= |s.rows| ==> r.offset == s.offset
    ensures (if offset < 0 then s.offset else offset) > |s.rows| ==> r.offset == |s.rows|
    ensures r.done || r.nextOffset - r.offset == if 0 < n < 20 then n else 20
    ensures r.nextOffset - r.offset <= 20 && (n > 0 ==> r.nextOffset - r.offset <= n)
  {
    var start := Min(if offset < 0 then s.offset else offset, |s.rows|);
    var end := Min(start + BatchSize(n), |s.rows|);
    Found(s.rows[start..end], start, end, end >= |s.rows|)
  }

  function TableNext<R>(t: Table<R>, id: string, n: int, offset: int, now: int): (Table<R>, Lookup<R>) {
    var i := Index(t, id);
    if i == |t| then (t, Unknown)
    else if now >= t[i].session.expiresAt then (Without(t, i), Expired)
    else
      var window := Window(t[i].session, n, offset);
      (Without(t, i) + [Slot(id, t[i].session.(offset := window.nextOffset))], window)
  }

  // --- The store ------------------------------------------------------------------------

  predicate AllIn<R>(order: seq<string>, sessions: map<string, Session<R>>) {
    forall i :: 0 <= i < |order| ==> order[i] in sessions
  }

  /** The table held by a map and the order of its keys. */
  function View<R>(order: seq<string>, sessions: map<string, Session<R>>): (t: Table<R>)
    requires AllIn(order, sessions)
    ensures |t| == |order| && forall i :: 0 <= i < |order| ==> t[i] == Slot(order[i], sessions[order[i]])
  {
    if order == [] then [] else [Slot(order[0], sessions[order[0]])] + View(order[1..], sessions)
  }

  predicate NoRepeats(order: seq<string>) {
    forall i, j :: 0 <= i < j < |order| ==> order[i] != order[j]
  }

  /** A map and an order in step: each key once in the order, and nothing else there. */
  predicate InStep<R>(order: seq<string>, sessions: map<string, Session<R>>) {
    AllIn(order, sessions) && NoRepeats(order) && forall id :: id in sessions ==> id in order
  }

  class Store<R> {
    var ttl: int
    var capacity: int
    var maxRows: int
    var sessions: map<string, Session<R>>
    var order: seq<string>

    constructor (ttl: int, capacity: int, maxRows: int)
      ensures Valid() && Contents() == []
      ensures this.ttl == (if ttl > 0 then ttl else DEFAULT_TTL)
      ensures this.capacity == (if capacity > 0 then capacity else DEFAULT_CAPACITY)
      ensures this.maxRows == (if maxRows > 0 then maxRows else DEFAULT_MAX_ROWS)
    {
      this.ttl := if ttl <= 0 then DEFAULT_TTL else ttl;
      this.capacity := if capacity <= 0 then DEFAULT_CAPACITY else capacity;
      this.maxRows := if maxRows <= 0 then DEFAULT_MAX_ROWS else maxRows;
      sessions, order := map[], [];
    }

    ghost predicate Valid()
      reads this
    {
      capacity > 0 && maxRows > 0 && InStep(order, sessions)
    }

    ghost function Contents(): (t: Table<R>)
      reads this
      requires Valid()
    {
      View(order, sessions)
    }

    method Configure(ttl: int, capacity: int, maxRows: int)
      requires Valid()
      modifies this
      ensures Valid() && Contents() == old(Contents())
      ensures this.ttl == (if ttl > 0 then ttl else old(this.ttl))
      ensures this.capacity == (if capacity > 0 then capacity else old(this.capacity))
      ensures this.maxRows == (if maxRows > 0 then maxRows else old(this.maxRows))
    {
      if ttl > 0 {
        this.ttl := ttl;
      }
      if capacity > 0 {
        this.capacity := capacity;
      }
      if maxRows > 0 {
        this.maxRows := maxRows;
      }
    }

    method PruneLocked(now: int)
      requires Valid()
      modifies this
      ensures Valid() && Contents() == LiveSlots(old(Contents()), now)
      ensures ttl == old(ttl) && capacity == old(capacity) && maxRows == old(maxRows)
      ensures forall id :: id in sessions ==> id in old(sessions)
    {
      hide View, LiveSlots, LiveIds, InStep;
      ghost var before, all := sessions, LiveIds(order, sessions, now);
      var kept: seq<string> := [];
      PruneStarts(order, before, now);
      for i := 0 to |order|
        invariant order == old(order) && ttl == old(ttl) && capacity == old(capacity) && maxRows == old(maxRows)
        invariant all == kept + LiveIds(order[i..], before, now)
        invariant Pruned(order, before, sessions, i, now)
      {
        PruneStep(order, before, sessions, i, now);
        ghost var rest := LiveIds(order[i + 1..], before, now);
        if order[i] in sessions && now < sessions[order[i]].expiresAt {
          assert kept + ([order[i]] + rest) == kept + [order[i]] + rest;
          kept := kept + [order[i]];
        } else {
          assert kept + ([] + rest) == kept + rest;
          sessions := sessions - {order[i]};
        }
      }
      PruneEnds(order, before, sessions, now);
      assert kept + [] == kept;
      order := kept;
    }

    method RemoveLocked(id: string)
      requires Valid() && id in sessions
      modifies this
      ensures Valid() && Index(old(Contents()), id) < |old(Contents())|
      ensures Contents() == Without(old(Contents()), Index(old(Contents()), id))
      ensures ttl == old(ttl) && capacity == old(capacity) && maxRows == old(maxRows)
    {
      ghost var i := Place(order, sessions, id);
      DropView(order, sessions, id, i);
      RemoveFromOrder(id, i);
      sessions := sessions - {id};
    }

    /** The first occurrence of an id leaves the order. */
    method RemoveFromOrder(id: string, ghost i: nat)
      requires i < |order| && order[i] == id && forall k :: 0 <= k < i ==> order[k] != id
      modifies this`order
      ensures order == Without(old(order), i)
    {
      for index := 0 to |order|
        invariant order == old(order) && forall k :: 0 <= k < index ==> order[k] != id
      {
        if order[index] == id {
          order := order[..index] + order[index + 1..];
          return;
        }
      }
    }

    method TouchLocked(id: string)
      requires Valid() && id in sessions
      modifies this`order
      ensures Valid() && Index(old(Contents()), id) < |old(Contents())|
      ensures Contents() == Without(old(Contents()), Index(old(Contents()), id)) + [Slot(id, sessions[id])]
    {
      hide View, Index, InStep, Without;
      ghost var i := Place(order, sessions, id);
      DropView(order, sessions, id, i);
      ViewSnoc(Without(order, i), id, sessions);
      RemoveFromOrder(id, i);
      order := order + [id];
    }

    /** id: the random identifier drawn for the session, not in use. */
    method Put(id: string, allRows: seq<R>, now: int) returns (session: Session<R>)
      requires Valid() && id !in sessions
      modifies this
      ensures Valid() && ttl == old(ttl) && capacity == old(capacity) && maxRows == old(maxRows)
      ensures session == Session(Capped(allRows, maxRows), |allRows| > maxRows, 0, now + ttl)
      ensures Contents() == TablePut(old(Contents()), Slot(id, session), capacity, now)
    {
      hide View, LiveSlots, InStep;
      PruneLocked(now);
      var truncated := false;
      var rows := allRows;
      if |rows| > maxRows {
        rows, truncated := rows[..maxRows], true;
      }
      session := Session(rows, truncated, 0, now + ttl);
      AddView(order, sessions, id, session);
      sessions := sessions[id := session];
      order := order + [id];
      Evict();
    }

    /** The front of the order goes until the rest fits. */
    method Evict()
      requires Valid()
      modifies this
      ensures Valid() && ttl == old(ttl) && capacity == old(capacity) && maxRows == old(maxRows)
      ensures Contents() == Last(old(Contents()), capacity)
    {
      hide View, LiveSlots, InStep;
      ghost var all := Contents();
      ViewSize(order, sessions);
      assert all[0..] == all;
      while |order| > capacity
        invariant Valid() && ttl == old(ttl) && capacity == old(capacity) && maxRows == old(maxRows)
        invariant |order| <= |all| && Contents() == all[|all| - |order|..] && (|order| < |all| ==> |order| >= capacity)
        decreases |order|
      {
        DropFirst(order, sessions);
        assert all[|all| - |order|..][1..] == all[|all| - |order| + 1..];
        sessions := sessions - {order[0]};
        order := order[1..];
      }
    }

    /** A read moves the session to the end of the order and remembers where it stopped. */
    method Next(id: string, n: int, reqOffset: int, now: int) returns (r: Lookup<R>)
      requires Valid()
      modifies this
      ensures Valid() && ttl == old(ttl) && capacity == old(capacity) && maxRows == old(maxRows)
      ensures (Contents(), r) == TableNext(old(Contents()), id, n, reqOffset, now)
    {
      hide View, InStep, Index, Without;
      ghost var table := Contents();
      if id !in sessions {
        NotThere(order, sessions, id);
        return Unknown;
      }
      ghost var i := Place(order, sessions, id);
      var session := sessions[id];
      assert table[i].session == session;
      if now >= session.expiresAt {
        RemoveLocked(id);
        return Expired;
      }
      TouchLocked(id);
      var size := if n <= 0 then 20 else n;
      if size > 20 {
        size := 20;
      }
      var offset := if reqOffset < 0 then session.offset else reqOffset;
      if offset > |session.rows| {
        offset := |session.rows|;
      }
      var end := offset + size;
      if end > |session.rows| {
        end := |session.rows|;
      }
      var rows := session.rows[offset..end];
      r := Found(rows, offset, end, end >= |session.rows|);
      assert r == Window(session, n, reqOffset);
      ReplaceLast(order, sessions, Without(table, i), id, session.(offset := end));
      sessions := sessions[id := session.(offset := end)];
    }
  }

  // --- The two structures ---------------------------------------------------------------

  /** The keys in order whose sessions have not expired. */
  function LiveIds<R>(order: seq<string>, sessions: map<string, Session<R>>, now: int): seq<string> {
    if order == [] then []
    else (if order[0] in sessions && now < sessions[order[0]].expiresAt then [order[0]] else [])
         + LiveIds(order[1..], sessions, now)
  }

  /** The map after i keys: expired sessions among them are gone. */
  ghost predicate Pruned<R>(order: seq<string>, before: map<string, Session<R>>, sessions: map<string, Session<R>>,
                            i: nat, now: int) {
    && i <= |order| && InStep(order, before)
    && (forall id :: id in sessions ==> id in before && sessions[id] == before[id])
    && (forall id :: id in before && id !in sessions ==> now >= before[id].expiresAt)
    && (forall k :: 0 <= k < i && now >= before[order[k]].expiresAt ==> order[k] !in sessions)
    && (forall k :: i <= k < |order| ==> order[k] in sessions)
  }

  lemma PruneStarts<R>(order: seq<string>, before: map<string, Session<R>>, now: int)
    requires InStep(order, before)
    ensures Pruned(order, before, before, 0, now) && LiveIds(order, before, now) == [] + LiveIds(order[0..], before, now)
  {
    hide LiveIds;
    assert order[0..] == order;
  }

  lemma PruneStep<R>(order: seq<string>, before: map<string, Session<R>>, sessions: map<string, Session<R>>, i: nat, now: int)
    requires i < |order| && Pruned(order, before, sessions, i, now)
    ensures order[i] in sessions && order[i] in before && sessions[order[i]] == before[order[i]]
    ensures now < before[order[i]].expiresAt ==> Pruned(order, before, sessions, i + 1, now)
    ensures now >= before[order[i]].expiresAt ==> Pruned(order, before, sessions - {order[i]}, i + 1, now)
    ensures LiveIds(order[i..], before, now)
      == (if now < before[order[i]].expiresAt then [order[i]] else []) + LiveIds(order[i + 1..], before, now)
  {
    assert order[i..][1..] == order[i + 1..];
  }

  lemma PruneEnds<R>(order: seq<string>, before: map<string, Session<R>>, sessions: map<string, Session<R>>, now: int)
    requires Pruned(order, before, sessions, |order|, now)
    ensures LiveIds(order[|order|..], before, now) == []
    ensures InStep(LiveIds(order, before, now), sessions)
    ensures View(LiveIds(order, before, now), sessions) == LiveSlots(View(order, before), now)
  {
    var live := LiveIds(order, before, now);
    LiveIdsAre(order, before, now);
    forall id | id in sessions ensures id in live {
      assert id in order;
      var k :| 0 <= k < |order| && order[k] == id;
    }
    LiveView(order, before, now);
    SameView(live, before, sessions);
  }

  lemma {:induction false} LiveIdsAre<R>(order: seq<string>, sessions: map<string, Session<R>>, now: int)
    requires AllIn(order, sessions) && NoRepeats(order)
    ensures forall id :: id in LiveIds(order, sessions, now) <==> id in order && now < sessions[id].expiresAt
    ensures NoRepeats(LiveIds(order, sessions, now))
  {
    if order != [] {
      LiveIdsAre(order[1..], sessions, now);
      assert order == [order[0]] + order[1..];
      assert order[0] !in order[1..];
    }
  }

  lemma {:induction false} LiveView<R>(order: seq<string>, sessions: map<string, Session<R>>, now: int)
    requires AllIn(order, sessions)
    ensures AllIn(LiveIds(order, sessions, now), sessions)
    ensures View(LiveIds(order, sessions, now), sessions) == LiveSlots(View(order, sessions), now)
  {
    if order != [] {
      LiveView(order[1..], sessions, now);
      assert View(order, sessions)[1..] == View(order[1..], sessions);
    }
  }

  lemma SameView<R>(order: seq<string>, a: map<string, Session<R>>, b: map<string, Session<R>>)
    requires AllIn(order, a) && AllIn(order, b) && forall id :: id in b ==> id in a && a[id] == b[id]
    ensures View(order, a) == View(order, b)
  {
  }

  lemma ViewSnoc<R>(order: seq<string>, id: string, sessions: map<string, Session<R>>)
    requires AllIn(order, sessions) && id in sessions
    ensures AllIn(order + [id], sessions) && View(order + [id], sessions) == View(order, sessions) + [Slot(id, sessions[id])]
  {
    hide View;
    assert View(order + [id], sessions) == View(order, sessions) + [Slot(id, sessions[id])] by {
      var more := order + [id];
      assert forall k :: 0 <= k < |order| ==> more[k] == order[k];
    }
  }

  lemma Place<R>(order: seq<string>, sessions: map<string, Session<R>>, id: string) returns (i: nat)
    requires InStep(order, sessions) && id in sessions
    ensures i < |order| && order[i] == id && i == Index(View(order, sessions), id)
    ensures forall k :: 0 <= k < i ==> order[k] != id
  {
    i := Index(View(order, sessions), id);
    var j :| 0 <= j < |order| && order[j] == id;
    assert View(order, sessions)[j].id == id;
  }

  lemma NotThere<R>(order: seq<string>, sessions: map<string, Session<R>>, id: string)
    requires InStep(order, sessions) && id !in sessions
    ensures Index(View(order, sessions), id) == |View(order, sessions)|
  {
  }

  lemma WithoutMembers(order: seq<string>, i: nat, x: string)
    requires NoRepeats(order) && i < |order|
    ensures x in Without(order, i) <==> x in order && x != order[i]
  {
    var rest := Without(order, i);
    if x in order && x != order[i] {
      var k :| 0 <= k < |order| && order[k] == x;
      assert rest[if k < i then k else k - 1] == x;
    }
    if x in rest {
      var k :| 0 <= k < |rest| && rest[k] == x;
      assert order[if k < i then k else k + 1] == x;
    }
  }

  lemma WithoutNoRepeats(order: seq<string>, i: nat)
    requires NoRepeats(order) && i < |order|
    ensures NoRepeats(Without(order, i))
  {
  }

  lemma SnocNoRepeats(order: seq<string>, id: string)
    requires NoRepeats(order) && id !in order
    ensures NoRepeats(order + [id])
  {
  }

  lemma InStepWhen<R>(order: seq<string>, sessions: map<string, Session<R>>)
    requires NoRepeats(order) && forall x :: x in order <==> x in sessions
    ensures InStep(order, sessions)
  {
    hide NoRepeats;
  }

  lemma DropInStep<R>(order: seq<string>, sessions: map<string, Session<R>>, id: string, i: nat)
    requires InStep(order, sessions) && i < |order| && order[i] == id
    ensures InStep(Without(order, i), sessions - {id}) && InStep(Without(order, i) + [id], sessions)
  {
    assert forall x :: x in order ==> x in sessions;
    assert forall x :: x in sessions ==> x in order;
    hide *;
    var rest := Without(order, i);
    forall x ensures x in rest <==> x in order && x != id {
      WithoutMembers(order, i, x);
    }
    WithoutNoRepeats(order, i);
    SnocNoRepeats(rest, id);
    InStepWhen(rest, sessions - {id});
    InStepWhen(rest + [id], sessions);
  }

  lemma DropView<R>(order: seq<string>, sessions: map<string, Session<R>>, id: string, i: nat)
    requires InStep(order, sessions) && i < |order| && order[i] == id
    ensures InStep(Without(order, i), sessions - {id}) && InStep(Without(order, i) + [id], sessions)
    ensures AllIn(Without(order, i), sessions) && View(Without(order, i), sessions) == Without(View(order, sessions), i)
    ensures View(Without(order, i), sessions - {id}) == Without(View(order, sessions), i)
  {
    DropInStep(order, sessions, id, i);
    var rest := Without(order, i);
    assert AllIn(rest, sessions - {id}) && AllIn(rest, sessions);
    hide *;
    SameView(rest, sessions, sessions - {id});
    ViewWithout(order, sessions, i);
  }

  lemma ViewWithout<R>(order: seq<string>, sessions: map<string, Session<R>>, i: nat)
    requires AllIn(order, sessions) && i < |order| && AllIn(Without(order, i), sessions)
    ensures View(Without(order, i), sessions) == Without(View(order, sessions), i)
  {
    hide View;
    var a, b := View(Without(order, i), sessions), Without(View(order, sessions), i);
    forall k | 0 <= k < |a| ensures a[k] == b[k] {
      var from := if k < i then k else k + 1;
      assert Without(order, i)[k] == order[from];
      assert a[k] == Slot(order[from], sessions[order[from]]);
      assert b[k] == View(order, sessions)[from];
    }
  }

  lemma AddView<R>(order: seq<string>, sessions: map<string, Session<R>>, id: string, session: Session<R>)
    requires InStep(order, sessions) && id !in sessions
    ensures InStep(order + [id], sessions[id := session])
    ensures View(order + [id], sessions[id := session]) == View(order, sessions) + [Slot(id, session)]
  {
    hide View;
    var more := order + [id];
    assert forall k :: 0 <= k < |order| ==> more[k] == order[k];
    assert more[|order|] == id;
  }

  lemma DropFirst<R>(order: seq<string>, sessions: map<string, Session<R>>)
    requires InStep(order, sessions) && order != []
    ensures InStep(order[1..], sessions - {order[0]})
    ensures View(order[1..], sessions - {order[0]}) == View(order, sessions)[1..]
  {
    hide View;
    forall x | x in sessions && x != order[0] ensures x in order[1..] {
      var k :| 0 <= k < |order| && order[k] == x;
      assert order[1..][k - 1] == x;
    }
  }

  lemma ReplaceLast<R>(order: seq<string>, sessions: map<string, Session<R>>, front: Table<R>, id: string, session: Session<R>)
    requires InStep(order, sessions) && id in sessions && View(order, sessions) == front + [Slot(id, sessions[id])]
    ensures InStep(order, sessions[id := session])
    ensures View(order, sessions[id := session]) == front + [Slot(id, session)]
  {
    hide View;
    var t := View(order, sessions);
    assert t[|front|] == Slot(id, sessions[id]) && order[|front|] == id;
    assert forall k :: 0 <= k < |front| ==> t[k] == front[k] && order[k] != id;
  }

  lemma ViewSize<R>(order: seq<string>, sessions: map<string, Session<R>>)
    requires InStep(order, sessions)
    ensures |View(order, sessions)| == |order|
  {
    hide View;
  }

  // --- What the table guarantees --------------------------------------------------------

  lemma {:induction false} LiveSlotsAre<R>(t: Table<R>, now: int, slot: Slot<R>)
    ensures slot in LiveSlots(t, now) <==> slot in t && now < slot.session.expiresAt
  {
    if t != [] {
      LiveSlotsAre(t[1..], now, slot);
      assert t == [t[0]] + t[1..];
    }
  }

  lemma LastOfSnoc<T>(s: seq<T>, x: T, n: nat)
    requires n > 0
    ensures var r := Last(s + [x], n);
            && 0 < |r| <= n && |r| <= |s| + 1 && r == s[|s| + 1 - |r|..] + [x] && (|r| <= |s| ==> |r| == n)
  {
    if |s| + 1 <= n {
      assert s[0..] == s;
    } else {
      assert (s + [x])[|s| + 1 - n..] == s[|s| + 1 - n..] + [x];
    }
  }

  /** After every put the table is within its capacity, ends with the new session, and has lost
      only sessions that expired or were less recently used than all that stayed. */
  lemma PutKeepsMostRecent<R>(t: Table<R>, slot: Slot<R>, capacity: nat, now: int)
    requires capacity > 0
    ensures var after := TablePut(t, slot, capacity, now);
            var live := LiveSlots(t, now);
            && 0 < |after| <= capacity && |after| <= |live| + 1
            && after == live[|live| + 1 - |after|..] + [slot]
            && (|after| <= |live| ==> |after| == capacity)
  {
    hide LiveSlots, Last;
    LastOfSnoc(LiveSlots(t, now), slot, capacity);
  }

  // --- Reading to the end ---------------------------------------------------------------

  datatype Op<R> =
    | Put(slot: Slot<R>, capacity: nat, now: int)
    | Read(id: string, n: int, offset: int, now: int)

  function Apply<R>(t: Table<R>, op: Op<R>): Table<R> {
    match op
    case Put(slot, capacity, now) => TablePut(t, slot, capacity, now)
    case Read(id, n, offset, now) => TableNext(t, id, n, offset, now).0
  }

  /** The rows that continuation reads of one id deliver in a run, one after the other. */
  function Delivered<R>(t: Table<R>, ops: seq<Op<R>>, id: string): seq<R>
    decreases |ops|
  {
    if ops == [] then []
    else
      var op := ops[0];
      (if op.Read? && op.id == id then
         var r := TableNext(t, id, op.n, op.offset, op.now).1;
         if r.Found? then r.rows else []
       else []) + Delivered(Apply(t, op), ops[1..], id)
  }

  /** The run only ever reads on under this id, and never puts it again. */
  predicate ReadsOn<R>(ops: seq<Op<R>>, id: string) {
    forall i :: 0 <= i < |ops| ==>
      (ops[i].Read? && ops[i].id == id ==> ops[i].offset < 0) && (ops[i].Put? ==> ops[i].slot.id != id)
  }

  /** A session of this id may have left the table, but while it is there it is this one. */
  ghost predicate Only<R>(t: Table<R>, slot: Slot<R>) {
    forall i :: 0 <= i < |t| && t[i].id == slot.id ==> t[i] == slot
  }

  lemma PutKeepsOnly<R>(t: Table<R>, put: Slot<R>, capacity: nat, now: int, slot: Slot<R>)
    requires Only(t, slot) && put.id != slot.id
    ensures Only(TablePut(t, put, capacity, now), slot)
  {
    var after := TablePut(t, put, capacity, now);
    forall i | 0 <= i < |after| && after[i].id == slot.id ensures after[i] == slot {
      LiveSlotsAre(t, now, after[i]);
      assert after[i] in LiveSlots(t, now) + [put];
      var k :| 0 <= k < |t| && t[k] == after[i];
    }
  }

  lemma OtherReadKeepsOnly<R>(t: Table<R>, id: string, n: int, offset: int, now: int, slot: Slot<R>)
    requires Only(t, slot) && id != slot.id
    ensures Only(TableNext(t, id, n, offset, now).0, slot)
  {
    hide Index, Window;
  }

  lemma ReadMovesOn<R>(t: Table<R>, n: int, now: int, slot: Slot<R>)
    requires Only(t, slot) && Distinct(t)
    ensures var (t', r) := TableNext(t, slot.id, n, -1, now);
            if r.Found? then
              r == Window(slot.session, n, -1) && Only(t', Slot(slot.id, slot.session.(offset := r.nextOffset)))
            else Only(t', slot)
  {
    hide Window;
    var i := Index(t, slot.id);
    if i < |t| {
      assert t[i] == slot;
    }
  }

  lemma NegativeOffset<R>(t: Table<R>, id: string, n: int, offset: int, now: int)
    requires offset < 0
    ensures TableNext(t, id, n, offset, now) == TableNext(t, id, n, -1, now)
  {
  }

  function RunOps<R>(t: Table<R>, ops: seq<Op<R>>): Table<R>
    decreases |ops|
  {
    if ops == [] then t else RunOps(Apply(t, ops[0]), ops[1..])
  }

  /** Identifiers are drawn at random and do not collide with those in the table. */
  predicate FreshIds<R>(t: Table<R>, ops: seq<Op<R>>)
    decreases |ops|
  {
    ops != [] ==>
      && (ops[0].Put? ==> forall i :: 0 <= i < |t| ==> t[i].id != ops[0].slot.id)
      && FreshIds(Apply(t, ops[0]), ops[1..])
  }

  lemma {:induction false} LiveSlotsDistinct<R>(t: Table<R>, now: int, id: string)
    requires Distinct(t)
    ensures Distinct(LiveSlots(t, now))
    ensures (forall i :: 0 <= i < |t| ==> t[i].id != id) ==> forall i :: 0 <= i < |LiveSlots(t, now)| ==> LiveSlots(t, now)[i].id != id
  {
    if t != [] {
      LiveSlotsDistinct(t[1..], now, id);
      LiveSlotsDistinct(t[1..], now, t[0].id);
      assert forall i :: 0 <= i < |t| - 1 ==> t[1..][i] == t[i + 1];
    }
  }

  lemma PutDistinct<R>(t: Table<R>, slot: Slot<R>, capacity: nat, now: int)
    requires Distinct(t) && forall i :: 0 <= i < |t| ==> t[i].id != slot.id
    ensures Distinct(TablePut(t, slot, capacity, now))
  {
    LiveSlotsDistinct(t, now, slot.id);
    hide LiveSlots;
    var all := LiveSlots(t, now) + [slot];
    assert Distinct(all);
  }

  lemma NextDistinct<R>(t: Table<R>, id: string, n: int, offset: int, now: int)
    requires Distinct(t)
    ensures Distinct(TableNext(t, id, n, offset, now).0)
  {
    hide Window;
    var i := Index(t, id);
    if i < |t| {
      var rest := Without(t, i);
      assert forall k :: 0 <= k < |rest| ==> rest[k].id != id;
      assert Distinct(rest);
    }
  }

  lemma ApplyDistinct<R>(t: Table<R>, op: Op<R>)
    requires Distinct(t) && (op.Put? ==> forall i :: 0 <= i < |t| ==> t[i].id != op.slot.id)
    ensures Distinct(Apply(t, op))
  {
    hide TablePut, TableNext;
    match op
    case Put(slot, capacity, now) => PutDistinct(t, slot, capacity, now);
    case Read(id, n, offset, now) => NextDistinct(t, id, n, offset, now);
  }

  /** The slot after so many more of its rows have been read. */
  function Advanced<R>(slot: Slot<R>, n: nat): Slot<R> {
    slot.(session := slot.session.(offset := slot.session.offset + n))
  }

  /** One operation: the rows of this session that it delivers are the next ones, and the session,
      if still there, has moved on by as many. */
  lemma StepReadsOn<R>(t: Table<R>, op: Op<R>, slot: Slot<R>)
    requires Only(t, slot) && Distinct(t) && ReadsOn([op], slot.id) && slot.session.offset <= |slot.session.rows|
    ensures var rows := Delivered(t, [op], slot.id);
            var from := slot.session.offset;
            && from + |rows| <= |slot.session.rows| && rows == slot.session.rows[from..from + |rows|]
            && Only(Apply(t, op), Advanced(slot, |rows|))
  {
    assert [op][0] == op && [op][1..] == [];
    assert Advanced(slot, 0) == slot;
    hide TablePut, TableNext, Only;
    match op
    case Put(put, capacity, now) =>
      PutKeepsOnly(t, put, capacity, now, slot);
    case Read(id, n, offset, now) =>
      if id == slot.id {
        NegativeOffset(t, id, n, offset, now);
        ReadMovesOn(t, n, now, slot);
      } else {
        OtherReadKeepsOnly(t, id, n, offset, now, slot);
      }
  }

  lemma DeliveredSplit<R>(t: Table<R>, ops: seq<Op<R>>, id: string)
    requires ops != []
    ensures Delivered(t, ops, id) == Delivered(t, [ops[0]], id) + Delivered(Apply(t, ops[0]), ops[1..], id)
  {
    assert [ops[0]][1..] == [];
    hide Apply, TableNext;
  }

  lemma SlicesJoin<R>(rows: seq<R>, i: nat, j: nat, k: nat)
    requires i <= j <= k <= |rows|
    ensures rows[i..j] + rows[j..k] == rows[i..k] && |rows[i..k]| == k - i
  {
  }

  lemma ReadsOnSplit<R>(ops: seq<Op<R>>, id: string)
    requires ops != [] && ReadsOn(ops, id)
    ensures ReadsOn([ops[0]], id) && ReadsOn(ops[1..], id)
  {
  }

  lemma FreshSplit<R>(t: Table<R>, ops: seq<Op<R>>)
    requires ops != [] && FreshIds(t, ops) && Distinct(t)
    ensures FreshIds(Apply(t, ops[0]), ops[1..]) && Distinct(Apply(t, ops[0]))
    ensures RunOps(t, ops) == RunOps(Apply(t, ops[0]), ops[1..])
  {
    ApplyDistinct(t, ops[0]);
    hide Apply, Distinct;
  }

  lemma NothingDelivered<R>(t: Table<R>, slot: Slot<R>)
    ensures Delivered(t, [], slot.id) == [] && RunOps(t, []) == t && Advanced(slot, 0) == slot
  {
  }

  lemma AdvancedAdds<R>(slot: Slot<R>, a: nat, b: nat)
    ensures Advanced(Advanced(slot, a), b) == Advanced(slot, a + b)
    ensures Advanced(slot, a).id == slot.id && Advanced(slot, a).session.rows == slot.session.rows
    ensures Advanced(slot, a).session.offset == slot.session.offset + a
  {
  }

  /** Whatever else goes on in the table, the rows delivered to a reader that just reads on are the
      session's rows in order, from where it stood: none twice, none skipped. */
  lemma {:induction false} ReadersGetRowsInOrder<R>(t: Table<R>, ops: seq<Op<R>>, slot: Slot<R>)
    requires Only(t, slot) && Distinct(t) && FreshIds(t, ops) && ReadsOn(ops, slot.id)
    requires slot.session.offset <= |slot.session.rows|
    ensures var rows := Delivered(t, ops, slot.id);
            var from := slot.session.offset;
            && from + |rows| <= |slot.session.rows| && rows == slot.session.rows[from..from + |rows|]
            && Only(RunOps(t, ops), Advanced(slot, |rows|)) && Distinct(RunOps(t, ops))
    decreases |ops|
  {
    hide *;
    if ops == [] {
      NothingDelivered(t, slot);
    } else {
      var op, later := ops[0], ops[1..];
      ReadsOnSplit(ops, slot.id);
      FreshSplit(t, ops);
      StepReadsOn(t, op, slot);
      DeliveredSplit(t, ops, slot.id);
      var first := Delivered(t, [op], slot.id);
      var next := Advanced(slot, |first|);
      var rest := Delivered(Apply(t, op), later, slot.id);
      AdvancedAdds(slot, |first|, |rest|);
      ReadersGetRowsInOrder(Apply(t, op), later, next);
      var from := slot.session.offset;
      SlicesJoin(slot.session.rows, from, from + |first|, from + |first| + |rest|);
    }
  }

  /** done is raised exactly when everything has been delivered. */
  lemma DoneMeansEverything<R>(t: Table<R>, ops: seq<Op<R>>, slot: Slot<R>, n: int, now: int)
    requires Only(t, slot) && Distinct(t) && FreshIds(t, ops) && ReadsOn(ops, slot.id)
    requires slot.session.offset <= |slot.session.rows|
    requires TableNext(RunOps(t, ops), slot.id, n, -1, now).1.Found?
    ensures var last := TableNext(RunOps(t, ops), slot.id, n, -1, now).1;
            last.done <==> Delivered(t, ops, slot.id) + last.rows == slot.session.rows[slot.session.offset..]
  {
    hide *;
    ReadersGetRowsInOrder(t, ops, slot);
    var count := |Delivered(t, ops, slot.id)|;
    AdvancedAdds(slot, count, 0);
    ReadMovesOn(RunOps(t, ops), n, now, Advanced(slot, count));
    var last := Window(Advanced(slot, count).session, n, -1);
    WindowStarts(Advanced(slot, count).session, n);
    var rows, from := slot.session.rows, slot.session.offset;
    SlicesJoin(rows, from, from + count, last.nextOffset);
    assert rows[from..|rows|] == rows[from..];
    assert |rows[from..last.nextOffset]| == |rows[from..]| <==> last.nextOffset == |rows|;
  }

  /** The same session, perhaps read further. */
  predicate SameButRead<R(==)>(a: Slot<R>, b: Slot<R>) {
    a.id == b.id && a.session == b.session.(offset := a.session.offset)
  }

  /** A read finds a session up to its expiry and not after; a read that comes too late removes it, and
      no read prolongs it. */
  lemma ExpiryDecides<R>(t: Table<R>, id: string, n: int, offset: int, now: int)
    requires Distinct(t)
    ensures var (t', r) := TableNext(t, id, n, offset, now);
            && (r.Found? <==> exists i :: 0 <= i < |t| && t[i].id == id && now < t[i].session.expiresAt)
            && (r.Expired? <==> exists i :: 0 <= i < |t| && t[i].id == id && now >= t[i].session.expiresAt)
            && (!r.Found? ==> forall i :: 0 <= i < |t'| ==> t'[i].id != id)
            && (forall i :: 0 <= i < |t'| ==> exists k :: 0 <= k < |t| && SameButRead(t[k], t'[i]))
  {
    var i := Index(t, id);
    var t' := TableNext(t, id, n, offset, now).0;
    hide Window;
    if i < |t| {
      forall j | 0 <= j < |t'| ensures exists k :: 0 <= k < |t| && SameButRead(t[k], t'[j]) {
        var k := if j == |t| - 1 then i else if j < i then j else j + 1;
        assert SameButRead(t[k], t'[j]);
      }
    }
  }

  /** An explicit offset is a seek: the next read without one goes on behind the window shown. */
  lemma SeekMovesCursor<R>(t: Table<R>, id: string, n: int, offset: int, now: int, m: int, later: int)
    requires TableNext(t, id, n, offset, now).1.Found?
    requires forall i :: 0 <= i < |t| && t[i].id == id ==> later < t[i].session.expiresAt
    requires forall i, j :: 0 <= i < j < |t| ==> t[i].id != t[j].id
    ensures var (t', r) := TableNext(t, id, n, offset, now);
            var r' := TableNext(t', id, m, -1, later).1;
            && r'.Found? && r'.offset == r.nextOffset
            && (0 <= offset ==> r.offset <= offset && (r.offset == offset || r.done))
  {
    var i := Index(t, id);
    var (t', r) := TableNext(t, id, n, offset, now);
    var moved := Slot(id, t[i].session.(offset := r.nextOffset));
    assert t' == Without(t, i) + [moved] && t'[|t'| - 1] == moved;
    hide Window;
    assert forall k :: 0 <= k < |t'| - 1 ==> t'[k].id != id;
    assert Index(t', id) == |t'| - 1;
  }

  lemma WindowStarts<R>(s: Session<R>, n: int)
    requires s.offset <= |s.rows|
    ensures Window(s, n, -1).offset == s.offset
  {
  }
}
