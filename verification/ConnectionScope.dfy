/**
 What one operation may touch, over every run of ConnectionProtocol: whose sessions it takes away,
 whose shared connection it uses or closes, and how often it runs its function.
 */
module ConnectionScope {
  import opened Wrappers
  import opened ConnectionProtocol
  import opened ConnectionSafety
  import opened ConnectionTheorems

  // --- Where a thread can be while it carries out an operation --------------------------------

  predicate EntryOf(s: State, e: nat, id: Id) {
    e < |s.entries| && s.entries[e].id == id
  }

  predicate SessionOf(s: State, n: nat, id: Id) {
    n < |s.sessions| && s.sessions[n].id == id
  }

  /** Detaching everything of one connection, or of all for None, after the table step. */
  predicate Clearing(s: State, which: Option<Id>, sec: Section) {
    match sec
    case CloseEntry(es, cancel) =>
      cancel == which && (which.Some? ==> forall i :: 0 <= i < |es| ==> EntryOf(s, es[i], which.value))
    case CancelSessions(w) => w == which
    case CloseSession(_, after) => after == Return
    case FinishClose(_, _, _, after) => after == Return
    case _ => false
  }

  predicate Attempts(retry: bool, attempt: Attempt) {
    if retry then attempt != Once else attempt == Once
  }

  /** Using the shared connection of an entry of this id. */
  predicate Sharing(s: State, id: Id, retry: bool, sec: Section) {
    match sec
    case Lookup(i, use) => i == id && use == ForShared(if retry then First else Once)
    case SharedStart(e, attempt) => EntryOf(s, e, id) && Attempts(retry, attempt) && attempt != Retried
    case CheckBeforeDial(e, attempt) => EntryOf(s, e, id) && Attempts(retry, attempt)
    case DialShared(e, attempt) => EntryOf(s, e, id) && Attempts(retry, attempt)
    case CheckAfterDial(e, _, attempt) => EntryOf(s, e, id) && Attempts(retry, attempt)
    case Install(e, _, attempt) => EntryOf(s, e, id) && Attempts(retry, attempt)
    case RunShared(e, attempt) => EntryOf(s, e, id) && Attempts(retry, attempt)
    case _ => false
  }

  predicate Dedicating(s: State, id: Id, sec: Section) {
    match sec
    case Lookup(i, use) => i == id && use == ForDedicated
    case Snapshot(e, use) => EntryOf(s, e, id) && use == ForDedicated
    case DialDedicated(e, _) => EntryOf(s, e, id)
    case CheckDedicated(e, _, _) => EntryOf(s, e, id)
    case RunDedicated(e, _, _) => EntryOf(s, e, id)
    case _ => false
  }

  /** Taking expired sessions out, and closing them, before going on. */
  predicate Pruning(after: After, sec: Section) {
    match sec
    case PruneBegin(a) => a == after
    case Prune(_, _, a) => a == after
    case CloseSession(_, a) => a == after
    case FinishClose(_, _, _, a) => a == after
    case _ => false
  }

  /** Paging one session, and closing it once it is taken out. */
  predicate PagingOf(s: State, n: nat, id: Id, sec: Section) {
    match sec
    case NextCheck(m) => m == n && SessionOf(s, n, id)
    case NextRequest(m) => m == n && SessionOf(s, n, id)
    case RemoveSession(m) => m == n && SessionOf(s, n, id)
    case CloseSession(_, after) => after == Return
    case FinishClose(_, _, _, after) => after == Return
    case _ => false
  }

  /** Closing the sessions taken out, and nothing after. */
  predicate Ending(sec: Section) {
    (sec.CloseSession? || sec.FinishClose?) && sec.after == Return
  }

  predicate Starting(s: State, id: Id, sec: Section) {
    match sec
    case Lookup(i, use) => i == id && use == ForSearch
    case Snapshot(e, use) => EntryOf(s, e, id) && use == ForSearch
    case PruneBegin(after) => after.ThenStart? && EntryOf(s, after.e, id)
    case Prune(_, _, after) => after.ThenStart? && EntryOf(s, after.e, id)
    case CloseSession(_, after) => after == Return || (after.ThenStart? && EntryOf(s, after.e, id))
    case FinishClose(_, _, _, after) => after == Return || (after.ThenStart? && EntryOf(s, after.e, id))
    case CountSessions(e) => EntryOf(s, e, id)
    case DialSession(e) => EntryOf(s, e, id)
    case CheckSession(e, _) => EntryOf(s, e, id)
    case AddSession(e, _) => EntryOf(s, e, id)
    case NextCheck(n) => SessionOf(s, n, id)
    case NextRequest(n) => SessionOf(s, n, id)
    case RemoveSession(n) => SessionOf(s, n, id)
    case _ => false
  }

  /** The positions of an operation, each with what it holds on to. */
  predicate Doing(s: State, op: Op, th: Thread) {
    th.Idle? ||
    match op
    case OpConnect(id, config) => th.sec == ConnectTable(id, config) || Clearing(s, Some(id), th.sec)
    case OpDisconnect(id) => th.sec == DisconnectTable(id) || Clearing(s, Some(id), th.sec)
    case OpCloseAll => th.sec == CloseAllTable || Clearing(s, None, th.sec)
    case OpWithConn(id, retry) => Sharing(s, id, retry, th.sec)
    case OpDedicated(id) => Dedicating(s, id, th.sec) || Sharing(s, id, true, th.sec)
    case OpSearchStart(id) => Starting(s, id, th.sec)
    case OpSearchNext(id, n) =>
      Pruning(ThenFind(id, n), th.sec) || th.sec == FindSession(id, n) || PagingOf(s, n, id, th.sec)
    case OpSearchCancel(id, n) => th.sec == CancelOne(id, n) || Ending(th.sec)
    case OpReap => Pruning(Return, th.sec)
  }

  // --- Steps keep the position ----------------------------------------------------------------

  /** Entries and sessions are never renamed or forgotten. */
  predicate SameIds(s: State, s': State) {
    && |s.entries| <= |s'.entries| && (forall e :: 0 <= e < |s.entries| ==> s'.entries[e].id == s.entries[e].id)
    && |s.sessions| <= |s'.sessions| && forall n :: 0 <= n < |s.sessions| ==> s'.sessions[n].id == s.sessions[n].id
  }

  lemma DoingStays(s: State, s': State, op: Op, th: Thread)
    requires Doing(s, op, th) && SameIds(s, s')
    ensures Doing(s', op, th)
  {
  }

  ghost predicate Executable(s: State, t: nat, sec: Section, o: Oracle) {
    AllPlaced(s) && t in s.threads && s.threads[t] == Run(sec) && TablesInRange(s) && InRange(s, sec) && OracleFits(s, sec, o)
  }

  predicate Detaching(sec: Section) {
    sec.ConnectTable? || sec.DisconnectTable? || sec.CloseAllTable? || sec.CloseEntry? || sec.CancelSessions?
  }

  predicate Paging(sec: Section) {
    sec.CountSessions? || sec.DialSession? || sec.CheckSession? || sec.AddSession? || sec.NextCheck? || sec.NextRequest?
    || sec.RemoveSession? || sec.FindSession? || sec.CancelOne?
  }

  predicate Closing(sec: Section) {
    sec.CloseSession? || sec.FinishClose? || sec.PruneBegin? || sec.Prune?
  }

  /** The step keeps the ids and leaves the thread inside its operation. */
  ghost predicate Inside(s: State, t: nat, op: Op, s': State) {
    SameIds(s, s') && t in s'.threads && Doing(s', op, s'.threads[t]) && s'.threads.Keys == s.threads.Keys
    && forall u :: u in s.threads && u != t ==> s'.threads[u] == s.threads[u]
  }

  lemma ConnectInside(s: State, t: nat, id: Id, config: Config)
    requires AllPlaced(s) && TablesInRange(s) && t in s.threads && s.threads[t] == Run(ConnectTable(id, config))
    ensures Inside(s, t, OpConnect(id, config), DoConnect(s, t, id, config))
  {
    hide Placed;
  }

  lemma DisconnectInside(s: State, t: nat, id: Id)
    requires AllPlaced(s) && TablesInRange(s) && t in s.threads && s.threads[t] == Run(DisconnectTable(id))
    ensures Inside(s, t, OpDisconnect(id), DoDisconnect(s, t, id))
  {
    hide Placed;
  }

  lemma CloseEntryInside(s: State, t: nat, es: seq<nat>, cancel: Option<Id>, op: Op)
    requires t in s.threads && s.threads[t] == Run(CloseEntry(es, cancel)) && es != [] && es[0] < |s.entries|
    requires Doing(s, op, Run(CloseEntry(es, cancel)))
    ensures Inside(s, t, op, DoCloseEntry(s, t, es, cancel))
  {
    var s' := DoCloseEntry(s, t, es, cancel);
    assert SameIds(s, s');
    if |es| > 1 {
      DoingStays(s, s', op, Run(CloseEntry(es, cancel)));
      assert forall i :: 0 <= i < |es[1..]| ==> es[1..][i] == es[i + 1];
    }
  }

  lemma CancelFollows(s: State, op: Op, which: Option<Id>, order: seq<nat>)
    requires Doing(s, op, Run(CancelSessions(which)))
    ensures Doing(s, op, CloseAllOf(order, Return))
  {
  }

  lemma CloseAllInside(s: State, t: nat, order: seq<nat>)
    requires t in s.threads
    ensures Inside(s, t, OpCloseAll, DoCloseAll(s, t, order))
  {
    var th := if order == [] then Wait(CancelSessions(None)) else Wait(CloseEntry(order, None));
    assert Doing(s, OpCloseAll, th);
    hide Doing, Inside;
    MoveInside(s, s.(table := map[]), t, OpCloseAll, th);
  }

  lemma TableIsOfOp(s: State, op: Op, sec: Section)
    requires Doing(s, op, Run(sec))
    ensures (sec.ConnectTable? ==> op == OpConnect(sec.id, sec.config)) && (sec.DisconnectTable? ==> op == OpDisconnect(sec.id))
    ensures sec.CloseAllTable? ==> op == OpCloseAll
  {
  }

  lemma DetachingInside(s: State, t: nat, sec: Section, o: Oracle, op: Op)
    requires Executable(s, t, sec, o) && Detaching(sec) && Doing(s, op, Run(sec))
    ensures Inside(s, t, op, Exec(s, t, sec, o))
  {
    hide Inside, Doing, DoConnect, DoDisconnect, DoCloseAll, DoCloseEntry, CloseAllOf;
    TableIsOfOp(s, op, sec);
    match sec {
      case ConnectTable(id, config) => ConnectInside(s, t, id, config);
      case DisconnectTable(id) => DisconnectInside(s, t, id);
      case CloseAllTable => CloseAllInside(s, t, o.order);
      case CloseEntry(es, cancel) => CloseEntryInside(s, t, es, cancel, op);
      case CancelSessions(which) =>
        CancelFollows(s, op, which, o.order);
        MoveInside(s, s.(live := s.live - Matching(s, which)), t, op, CloseAllOf(o.order, Return));
    }
  }

  /** The thread moves on, and no entry or session changes. */
  lemma MoveInside(s: State, d: State, t: nat, op: Op, th: Thread)
    requires t in s.threads && d.threads == s.threads && d.entries == s.entries && d.sessions == s.sessions
    requires Doing(s, op, th)
    ensures Inside(s, t, op, d.Go(t, th))
  {
    DoingStays(s, d.Go(t, th), op, th);
    hide Doing;
  }

  lemma IdleInside(s: State, d: State, t: nat, op: Op)
    requires t in s.threads && d.threads == s.threads && d.entries == s.entries && d.sessions == s.sessions
    ensures Inside(s, t, op, d.Go(t, Idle))
  {
    IdleIsDoing(s, op);
    hide Doing;
    MoveInside(s, d, t, op, Idle);
  }

  lemma DialInside(s: State, t: nat, op: Op, dialOk: bool, dialled: Thread, failed: Thread)
    requires t in s.threads && Doing(s, op, dialled) && Doing(s, op, failed)
    ensures Inside(s, t, op, DoDial(s, t, dialOk, dialled, failed))
  {
    hide Doing;
    if dialOk {
      MoveInside(s, s.Dialled(t), t, op, dialled);
    } else {
      MoveInside(s, s, t, op, failed);
    }
  }

  lemma CheckInside(s: State, t: nat, op: Op, e: nat, c: nat, current: Thread)
    requires t in s.threads && e < |s.entries| && Doing(s, op, current)
    ensures Inside(s, t, op, DoCheck(s, t, e, c, current))
  {
    hide Doing;
    if s.Current(e) {
      MoveInside(s, s, t, op, current);
    } else {
      IdleInside(s, s.Close(c), t, op);
    }
  }

  /** Where a section may send its thread, as far as the operation is concerned. */
  lemma StartFollows(s: State, op: Op, e: nat, c: nat, sec: Section)
    requires sec in {CountSessions(e), DialSession(e), CheckSession(e, c)} && Doing(s, op, Run(sec))
    ensures Doing(s, op, Run(DialSession(e))) && forall x :: Doing(s, op, Wait(CheckSession(e, x))) && Doing(s, op,
      Wait(AddSession(e, x)))
  {
  }

  lemma CheckFollows(s: State, op: Op, n: nat, expired: bool)
    requires n < |s.sessions| && Doing(s, op, Run(NextCheck(n)))
    ensures Doing(s, op, AfterNextCheck(s, n, expired))
  {
  }

  lemma FindFollows(s: State, op: Op, id: Id, n: nat)
    requires Doing(s, op, Run(FindSession(id, n))) && n < |s.sessions| && s.sessions[n].id == id
    ensures Doing(s, op, Wait(NextCheck(n)))
  {
  }

  lemma PagingInside(s: State, t: nat, sec: Section, o: Oracle, op: Op)
    requires Executable(s, t, sec, o) && Paging(sec) && Doing(s, op, Run(sec))
    ensures Inside(s, t, op, Exec(s, t, sec, o))
  {
    IdleIsDoing(s, op);
    hide Inside, AllPlaced, Booked, HasMore, Opened, OracleFits, Doing, DoAddSession, DoNextRequest, DoRemove, DoDial, DoCheck,
      AfterNextCheck;
    match sec {
      case CountSessions(e) =>
        StartFollows(s, op, e, 0, sec);
        MoveInside(s, s, t, op, if |s.live| >= MAX_SESSIONS then Idle else Run(DialSession(e)));
      case DialSession(e) =>
        StartFollows(s, op, e, 0, sec);
        DialInside(s, t, op, o.dialOk, Wait(CheckSession(e, |s.issued|)), Idle);
      case CheckSession(e, c) =>
        StartFollows(s, op, e, c, sec);
        CheckInside(s, t, op, e, c, Wait(AddSession(e, c)));
      case AddSession(e, c) => AddInside(s, t, e, c, o.limit, op);
      case NextCheck(n) =>
        CheckFollows(s, op, n, o.expired);
        MoveInside(s, s, t, op, AfterNextCheck(s, n, o.expired));
      case NextRequest(n) => RequestInside(s, t, n, o, op);
      case RemoveSession(n) => RemoveInside(s, t, sec, n, true, op);
      case FindSession(id, n) => FindInside(s, t, id, n, op);
      case CancelOne(id, n) => RemoveInside(s, t, sec, n, n in s.live && s.sessions[n].id == id, op);
    }
  }

  lemma FindInside(s: State, t: nat, id: Id, n: nat, op: Op)
    requires TablesInRange(s) && t in s.threads && Doing(s, op, Run(FindSession(id, n)))
    ensures Inside(s, t, op, s.Go(t, if n in s.live && s.sessions[n].id == id then Wait(NextCheck(n)) else Idle))
  {
    hide Doing, Inside;
    if n in s.live && s.sessions[n].id == id {
      FindFollows(s, op, id, n);
      MoveInside(s, s, t, op, Wait(NextCheck(n)));
    } else {
      IdleInside(s, s, t, op);
    }
  }

  lemma AddInside(s: State, t: nat, e: nat, c: nat, limit: nat, op: Op)
    requires t in s.threads && e < |s.entries| && Doing(s, op, Run(AddSession(e, c)))
    ensures Inside(s, t, op, DoAddSession(s, t, e, c, limit))
  {
    var s' := DoAddSession(s, t, e, c, limit);
    AddedIds(s, t, e, c, limit);
    AddIsStart(s, op, e, c);
    IdleIsDoing(s', op);
    hide DoAddSession, EntryOf;
    if s'.threads[t] != Idle {
      NextOfStart(s', op, |s.sessions|);
    }
  }

  lemma AddIsStart(s: State, op: Op, e: nat, c: nat)
    requires e < |s.entries| && Doing(s, op, Run(AddSession(e, c)))
    ensures op == OpSearchStart(s.entries[e].id)
  {
  }

  lemma NextOfStart(s: State, op: Op, n: nat)
    requires op.OpSearchStart? && SessionOf(s, n, op.id)
    ensures Doing(s, op, Wait(NextCheck(n)))
  {
  }

  lemma AddedIds(s: State, t: nat, e: nat, c: nat, limit: nat)
    requires t in s.threads && e < |s.entries|
    ensures var s' := DoAddSession(s, t, e, c, limit);
            && SameIds(s, s') && t in s'.threads && s'.threads.Keys == s.threads.Keys
            && (forall u :: u in s.threads && u != t ==> s'.threads[u] == s.threads[u])
            && (s'.threads[t] == Idle
                || (s'.threads[t] == Wait(NextCheck(|s.sessions|)) && SessionOf(s', |s.sessions|, s.entries[e].id)))
  {
    hide Opened;
  }

  lemma RequestInside(s: State, t: nat, n: nat, o: Oracle, op: Op)
    requires t in s.threads && n < |s.sessions| && s.sessions[n].conn.Some? && s.sessions[n].conn.value < |s.issued|
    requires Doing(s, op, Run(NextRequest(n)))
    ensures Inside(s, t, op, DoNextRequest(s, t, n, o))
  {
    hide Booked, HasMore;
    var s' := DoNextRequest(s, t, n, o);
    assert SameIds(s, s');
    assert Doing(s, op, Wait(RemoveSession(n)));
    DoingStays(s, s', op, Wait(RemoveSession(n)));
  }

  lemma RemoveInside(s: State, t: nat, sec: Section, n: nat, wanted: bool, op: Op)
    requires t in s.threads && Doing(s, op, Run(sec)) && (sec.RemoveSession? || sec.CancelOne?)
    ensures Inside(s, t, op, DoRemove(s, t, n, wanted))
  {
    assert Doing(s, op, Wait(CloseSession([n], Return)));
    hide Inside, Doing;
    if n in s.live && wanted {
      MoveInside(s, s.(live := s.live - {n}), t, op, Wait(CloseSession([n], Return)));
    } else {
      assert Doing(s, op, Idle) by {
        IdleIsDoing(s, op);
      }
      MoveInside(s, s, t, op, Idle);
    }
  }

  lemma IdleIsDoing(s: State, op: Op)
    ensures Doing(s, op, Idle)
  {
  }

  /** What follows once a list of sessions is closed belongs to the operation too. */
  lemma ContinueIsDoing(s: State, op: Op, ns: seq<nat>, after: After)
    requires Doing(s, op, Run(CloseSession(ns, after)))
    ensures Doing(s, op, Continue(after)) && forall ms :: Doing(s, op, CloseAllOf(ms, after))
  {
  }

  lemma ClosingFollows(s: State, op: Op, sec: Section)
    requires Closing(sec) && Doing(s, op, Run(sec))
    ensures forall ms :: Doing(s, op, CloseAllOf(ms, sec.after))
    ensures sec.PruneBegin? || sec.Prune? ==> forall todo, expired :: Doing(s, op, Run(Prune(todo, expired, sec.after)))
    ensures sec.CloseSession? ==> forall c, cookie, ns :: Doing(s, op, Run(FinishClose(c, cookie, ns, sec.after)))
  {
    assert Doing(s, op, Run(CloseSession([], sec.after)));
    ContinueIsDoing(s, op, [], sec.after);
  }

  lemma PruneInside(s: State, t: nat, todo: set<nat>, expired: seq<nat>, after: After, o: Oracle, op: Op)
    requires t in s.threads && Doing(s, op, CloseAllOf(expired, after))
    requires forall todo, expired :: Doing(s, op, Run(Prune(todo, expired, after)))
    ensures Inside(s, t, op, DoPrune(s, t, todo, expired, after, o))
  {
    hide Inside, Doing, State.Free, CloseAllOf;
    if todo == {} {
      MoveInside(s, s, t, op, CloseAllOf(expired, after));
    } else if s.Free(SessionMu(o.pick)) && o.expired && o.pick in s.live {
      MoveInside(s, s.(live := s.live - {o.pick}), t, op, Run(Prune(todo - {o.pick}, expired + [o.pick], after)));
    } else {
      MoveInside(s, s, t, op, Run(Prune(todo - {o.pick}, expired, after)));
    }
  }

  lemma ClosingInside(s: State, t: nat, sec: Section, o: Oracle, op: Op)
    requires Executable(s, t, sec, o) && Closing(sec) && Doing(s, op, Run(sec))
    ensures Inside(s, t, op, Exec(s, t, sec, o))
  {
    ClosingFollows(s, op, sec);
    hide Inside, AllPlaced, Doing, State.Free, DoCloseSession, DoPrune, CloseAllOf;
    match sec {
      case CloseSession(ns, after) => CloseSessionInside(s, t, ns, after, op);
      case FinishClose(c, _, ns, after) => MoveInside(s, s.Close(c), t, op, CloseAllOf(ns, after));
      case PruneBegin(after) => MoveInside(s, s, t, op, Run(Prune(s.live, [], after)));
      case Prune(todo, expired, after) => PruneInside(s, t, todo, expired, after, o, op);
    }
  }

  lemma CloseSessionInside(s: State, t: nat, ns: seq<nat>, after: After, op: Op)
    requires t in s.threads && ns != [] && ns[0] < |s.sessions|
    requires forall ms :: Doing(s, op, CloseAllOf(ms, after))
    requires forall c, cookie, ns :: Doing(s, op, Run(FinishClose(c, cookie, ns, after)))
    ensures Inside(s, t, op, DoCloseSession(s, t, ns, after))
  {
    var session := s.sessions[ns[0]];
    hide Inside, Doing, CloseAllOf;
    if session.closed || session.conn.None? {
      MoveInside(s, s, t, op, CloseAllOf(ns[1..], after));
    } else {
      TakenInside(s, t, ns, after, op);
    }
  }

  lemma TakenInside(s: State, t: nat, ns: seq<nat>, after: After, op: Op)
    requires t in s.threads && ns != [] && ns[0] < |s.sessions| && !s.sessions[ns[0]].closed && s.sessions[ns[0]].conn.Some?
    requires var x := s.sessions[ns[0]]; Doing(s, op, Run(FinishClose(x.conn.value, x.cookie, ns[1..], after)))
    ensures Inside(s, t, op, DoCloseSession(s, t, ns, after))
  {
    var s' := DoCloseSession(s, t, ns, after);
    var x := s.sessions[ns[0]];
    assert SameIds(s, s');
    DoingStays(s, s', op, Run(FinishClose(x.conn.value, x.cookie, ns[1..], after)));
    hide Doing;
  }

  lemma LookupFollows(s: State, op: Op, id: Id, use: Use)
    requires Doing(s, op, Run(Lookup(id, use)))
    requires forall i :: i in s.table ==> s.table[i] < |s.entries| && s.entries[s.table[i]].id == i
    ensures Doing(s, op, AfterLookup(s, id, use))
  {
  }

  lemma SnapshotFollows(s: State, op: Op, e: nat, use: Use)
    requires Doing(s, op, Run(Snapshot(e, use)))
    ensures Doing(s, op, AfterSnapshot(e, use))
  {
  }

  lemma SharedFollows(s: State, op: Op, e: nat, attempt: Attempt, sec: Section)
    requires e < |s.entries| && Doing(s, op, Run(sec))
    requires sec == SharedStart(e, attempt) || sec == CheckBeforeDial(e, attempt) || sec == DialShared(e, attempt)
             || (sec.CheckAfterDial? && sec.e == e && sec.attempt == attempt)
    ensures Doing(s, op, AfterSharedStart(s, e, attempt)) && Doing(s, op, Run(DialShared(e, attempt)))
    ensures forall c :: Doing(s, op, Wait(CheckAfterDial(e, c, attempt))) && Doing(s, op, Run(Install(e, c, attempt)))
  {
  }

  lemma DedicatedFollows(s: State, op: Op, e: nat, sec: Section)
    requires e < |s.entries| && Doing(s, op,
      Run(sec)) && (sec.DialDedicated? || sec.CheckDedicated? || sec.RunDedicated?) && sec.e == e
    ensures Doing(s, op, Wait(Lookup(s.entries[e].id, ForShared(First)))) && forall again :: Doing(s, op,
      Run(DialDedicated(e, again)))
    ensures forall c, again :: Doing(s, op, Wait(CheckDedicated(e, c, again))) && Doing(s, op, Run(RunDedicated(e, c, again)))
  {
  }

  lemma UsingInside(s: State, t: nat, sec: Section, o: Oracle, op: Op)
    requires Executable(s, t, sec, o) && !Detaching(sec) && !Paging(sec) && !Closing(sec) && Doing(s, op, Run(sec))
    ensures Inside(s, t, op, Exec(s, t, sec, o))
  {
    IdleIsDoing(s, op);
    assert forall i :: i in s.table ==> s.table[i] < |s.entries| && s.entries[s.table[i]].id == i;
    hide Inside, AllPlaced, OracleFits, Doing, DoDial, DoCheck, DoInstall, DoRunShared, AfterLookup, AfterSnapshot,
      AfterSharedStart;
    match sec {
      case Lookup(id, use) => LookupFollows(s, op, id, use); MoveInside(s, s, t, op, AfterLookup(s, id, use));
      case Snapshot(e, use) => SnapshotFollows(s, op, e, use); MoveInside(s, s, t, op, AfterSnapshot(e, use));
      case SharedStart(e, attempt) =>
        SharedFollows(s, op, e, attempt, sec);
        MoveInside(s, s, t, op, AfterSharedStart(s, e, attempt));
      case CheckBeforeDial(e, attempt) =>
        SharedFollows(s, op, e, attempt, sec);
        MoveInside(s, s, t, op, if s.Current(e) then Run(DialShared(e, attempt)) else Idle);
      case DialShared(e, attempt) =>
        SharedFollows(s, op, e, attempt, sec);
        DialInside(s, t, op, o.dialOk, Wait(CheckAfterDial(e, |s.issued|, attempt)), Idle);
      case CheckAfterDial(e, c, attempt) =>
        SharedFollows(s, op, e, attempt, sec);
        CheckInside(s, t, op, e, c, Run(Install(e, c, attempt)));
      case Install(e, c, attempt) => InstallInside(s, t, e, c, attempt, op);
      case RunShared(e, attempt) => SharedInside(s, t, e, attempt, o.outcome, op);
      case DialDedicated(e, again) =>
        DedicatedFollows(s, op, e, sec);
        DialInside(s, t, op, o.dialOk, Wait(CheckDedicated(e, |s.issued|, again)),
                   if again then Idle else Wait(Lookup(s.entries[e].id, ForShared(First))));
      case CheckDedicated(e, c, again) =>
        DedicatedFollows(s, op, e, sec);
        CheckInside(s, t, op, e, c, Run(RunDedicated(e, c, again)));
      case RunDedicated(e, c, again) =>
        DedicatedFollows(s, op, e, sec);
        MoveInside(s, s.Close(c), t, op, if o.outcome == Broken && !again then Run(DialDedicated(e, true)) else Idle);
    }
  }

  lemma InstallInside(s: State, t: nat, e: nat, c: nat, attempt: Attempt, op: Op)
    requires t in s.threads && e < |s.entries| && Doing(s, op, Run(Install(e, c, attempt)))
    ensures Inside(s, t, op, DoInstall(s, t, e, c, attempt))
  {
    var s' := DoInstall(s, t, e, c, attempt);
    assert SameIds(s, s') && Doing(s, op, Run(RunShared(e, attempt)));
    DoingStays(s, s', op, Run(RunShared(e, attempt)));
  }

  lemma SharedInside(s: State, t: nat, e: nat, attempt: Attempt, outcome: Outcome, op: Op)
    requires t in s.threads && e < |s.entries| && Doing(s, op, Run(RunShared(e, attempt)))
    ensures Inside(s, t, op, DoRunShared(s, t, e, attempt, outcome))
  {
    var s' := DoRunShared(s, t, e, attempt, outcome);
    assert SameIds(s, s');
    if attempt == First {
      assert Doing(s, op, Wait(CheckBeforeDial(e, Retried)));
      DoingStays(s, s', op, Wait(CheckBeforeDial(e, Retried)));
    }
  }

  lemma ExecInside(s: State, t: nat, sec: Section, o: Oracle, op: Op)
    requires Executable(s, t, sec, o) && Doing(s, op, Run(sec))
    ensures Inside(s, t, op, Exec(s, t, sec, o))
  {
    hide Executable, Doing, Inside, Exec;
    if Detaching(sec) {
      DetachingInside(s, t, sec, o, op);
    } else if Paging(sec) {
      PagingInside(s, t, sec, o, op);
    } else if Closing(sec) {
      ClosingInside(s, t, sec, o, op);
    } else {
      UsingInside(s, t, sec, o, op);
    }
  }
}
