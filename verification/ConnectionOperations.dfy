/**
 What one call of the sidecar does over a whole run of ConnectionProtocol, with any other calls
 interleaved: which sessions, entries and shared connections it may take away, which it must take
 away before it returns, and how often WithConn runs its function.
 */
module ConnectionOperations {
  import opened Wrappers
  import opened ConnectionProtocol
  import opened ConnectionSafety
  import opened ConnectionTheorems
  import opened ConnectionScope

  // --- A step of one thread, seen by the others ------------------------------------------------

  /** The step moves this thread alone, renames nothing, and lists no session but a new one. */
  ghost predicate Framed(s: State, u: nat, s': State) {
    && SameIds(s, s') && u in s'.threads && s'.threads == s.threads[u := s'.threads[u]]
    && s'.live <= s.live + {|s.sessions|}
  }

  /** The thread moves on, no entry or session changes, and none is listed anew. */
  lemma MoveFramed(s: State, d: State, u: nat, th: Thread)
    requires u in s.threads && d.threads == s.threads && d.entries == s.entries && d.sessions == s.sessions && d.live <= s.live
    ensures Framed(s, u, d.Go(u, th))
  {
  }

  lemma DialFramed(s: State, u: nat, dialOk: bool, dialled: Thread, failed: Thread)
    requires u in s.threads
    ensures Framed(s, u, DoDial(s, u, dialOk, dialled, failed))
  {
    hide Framed;
    if dialOk {
      MoveFramed(s, s.Dialled(u), u, dialled);
    } else {
      MoveFramed(s, s, u, failed);
    }
  }

  lemma CheckFramed(s: State, u: nat, e: nat, c: nat, current: Thread)
    requires u in s.threads && e < |s.entries|
    ensures Framed(s, u, DoCheck(s, u, e, c, current))
  {
    hide Framed;
    if s.Current(e) {
      MoveFramed(s, s, u, current);
    } else {
      MoveFramed(s, s.Close(c), u, Idle);
    }
  }

  lemma RemoveFramed(s: State, u: nat, n: nat, wanted: bool)
    requires u in s.threads
    ensures Framed(s, u, DoRemove(s, u, n, wanted))
  {
    hide Framed;
    if n in s.live && wanted {
      MoveFramed(s, s.(live := s.live - {n}), u, Wait(CloseSession([n], Return)));
    } else {
      MoveFramed(s, s, u, Idle);
    }
  }

  lemma ConnectFramed(s: State, u: nat, id: Id, config: Config)
    requires u in s.threads && TablesInRange(s)
    ensures Framed(s, u, DoConnect(s, u, id, config))
  {
  }

  lemma CloseEntryFramed(s: State, u: nat, es: seq<nat>, cancel: Option<Id>)
    requires u in s.threads && es != [] && es[0] < |s.entries|
    ensures Framed(s, u, DoCloseEntry(s, u, es, cancel))
  {
  }

  lemma DetachingFramed(s: State, u: nat, sec: Section, o: Oracle)
    requires Executable(s, u, sec, o) && Detaching(sec)
    ensures Framed(s, u, Exec(s, u, sec, o))
  {
    hide AllPlaced, Framed, CloseAllOf, OracleFits, DoConnect, DoCloseEntry;
    match sec {
      case ConnectTable(id, config) => ConnectFramed(s, u, id, config);
      case DisconnectTable(id) =>
        if id in s.table {
          MoveFramed(s, s.(table := s.table - {id}), u, Wait(CloseEntry([s.table[id]], Some(id))));
        } else {
          MoveFramed(s, s, u, Idle);
        }
      case CloseAllTable =>
        MoveFramed(s, s.(table := map[]), u,
          if o.order == [] then Wait(CancelSessions(None)) else Wait(CloseEntry(o.order, None)));
      case CloseEntry(es, cancel) => CloseEntryFramed(s, u, es, cancel);
      case CancelSessions(which) => MoveFramed(s, s.(live := s.live - Matching(s, which)), u, CloseAllOf(o.order, Return));
    }
  }

  lemma RequestFramed(s: State, u: nat, n: nat, o: Oracle)
    requires u in s.threads && n < |s.sessions| && s.sessions[n].conn.Some? && s.sessions[n].conn.value < |s.issued|
    ensures Framed(s, u, DoNextRequest(s, u, n, o))
  {
    hide Booked, HasMore;
  }

  lemma AddFramed(s: State, u: nat, e: nat, c: nat, limit: nat)
    requires u in s.threads && e < |s.entries|
    ensures Framed(s, u, DoAddSession(s, u, e, c, limit))
  {
    hide Opened;
  }

  lemma PagingFramed(s: State, u: nat, sec: Section, o: Oracle)
    requires Executable(s, u, sec, o) && Paging(sec)
    ensures Framed(s, u, Exec(s, u, sec, o))
  {
    hide AllPlaced, Framed, OracleFits, DoAddSession, DoNextRequest, DoRemove, DoDial, DoCheck, AfterNextCheck;
    match sec {
      case CountSessions(e) => MoveFramed(s, s, u, if |s.live| >= MAX_SESSIONS then Idle else Run(DialSession(e)));
      case DialSession(e) => DialFramed(s, u, o.dialOk, Wait(CheckSession(e, |s.issued|)), Idle);
      case CheckSession(e, c) => CheckFramed(s, u, e, c, Wait(AddSession(e, c)));
      case AddSession(e, c) => AddFramed(s, u, e, c, o.limit);
      case NextCheck(n) => MoveFramed(s, s, u, AfterNextCheck(s, n, o.expired));
      case NextRequest(n) => RequestFramed(s, u, n, o);
      case RemoveSession(n) => RemoveFramed(s, u, n, true);
      case FindSession(id, n) =>
        MoveFramed(s, s, u, if n in s.live && s.sessions[n].id == id then Wait(NextCheck(n)) else Idle);
      case CancelOne(id, n) => RemoveFramed(s, u, n, n in s.live && s.sessions[n].id == id);
    }
  }

  lemma CloseSessionFramed(s: State, u: nat, ns: seq<nat>, after: After)
    requires u in s.threads && ns != [] && ns[0] < |s.sessions|
    ensures Framed(s, u, DoCloseSession(s, u, ns, after))
  {
    hide CloseAllOf;
  }

  lemma PruneFramed(s: State, u: nat, todo: set<nat>, expired: seq<nat>, after: After, o: Oracle)
    requires u in s.threads
    ensures Framed(s, u, DoPrune(s, u, todo, expired, after, o))
  {
    hide CloseAllOf, State.Free;
  }

  lemma ClosingFramed(s: State, u: nat, sec: Section, o: Oracle)
    requires Executable(s, u, sec, o) && Closing(sec)
    ensures Framed(s, u, Exec(s, u, sec, o))
  {
    hide AllPlaced, Framed, CloseAllOf, DoCloseSession, DoPrune;
    match sec {
      case CloseSession(ns, after) => CloseSessionFramed(s, u, ns, after);
      case FinishClose(c, _, ns, after) => MoveFramed(s, s.Close(c), u, CloseAllOf(ns, after));
      case PruneBegin(after) => MoveFramed(s, s, u, Run(Prune(s.live, [], after)));
      case Prune(todo, expired, after) => PruneFramed(s, u, todo, expired, after, o);
    }
  }

  lemma InstallFramed(s: State, u: nat, e: nat, c: nat, attempt: Attempt)
    requires u in s.threads && e < |s.entries|
    ensures Framed(s, u, DoInstall(s, u, e, c, attempt))
  {
  }

  lemma SharedFramed(s: State, u: nat, e: nat, attempt: Attempt, outcome: Outcome)
    requires u in s.threads && e < |s.entries|
    ensures Framed(s, u, DoRunShared(s, u, e, attempt, outcome))
  {
  }

  lemma UsingFramed(s: State, u: nat, sec: Section, o: Oracle)
    requires Executable(s, u, sec, o) && !Detaching(sec) && !Paging(sec) && !Closing(sec)
    ensures Framed(s, u, Exec(s, u, sec, o))
  {
    hide AllPlaced, Framed, OracleFits, DoDial, DoCheck, DoInstall, DoRunShared, AfterLookup, AfterSnapshot, AfterSharedStart;
    match sec {
      case Lookup(id, use) => MoveFramed(s, s, u, AfterLookup(s, id, use));
      case Snapshot(e, use) => MoveFramed(s, s, u, AfterSnapshot(e, use));
      case SharedStart(e, attempt) => MoveFramed(s, s, u, AfterSharedStart(s, e, attempt));
      case CheckBeforeDial(e, attempt) => MoveFramed(s, s, u, if s.Current(e) then Run(DialShared(e, attempt)) else Idle);
      case DialShared(e, attempt) => DialFramed(s, u, o.dialOk, Wait(CheckAfterDial(e, |s.issued|, attempt)), Idle);
      case CheckAfterDial(e, c, attempt) => CheckFramed(s, u, e, c, Run(Install(e, c, attempt)));
      case Install(e, c, attempt) => InstallFramed(s, u, e, c, attempt);
      case RunShared(e, attempt) => SharedFramed(s, u, e, attempt, o.outcome);
      case DialDedicated(e, again) =>
        DialFramed(s, u, o.dialOk, Wait(CheckDedicated(e, |s.issued|, again)),
                   if again then Idle else Wait(Lookup(s.entries[e].id, ForShared(First))));
      case CheckDedicated(e, c, again) => CheckFramed(s, u, e, c, Run(RunDedicated(e, c, again)));
      case RunDedicated(e, c, again) =>
        MoveFramed(s, s.Close(c), u, if o.outcome == Broken && !again then Run(DialDedicated(e, true)) else Idle);
    }
  }

  lemma ExecFramed(s: State, u: nat, sec: Section, o: Oracle)
    requires Executable(s, u, sec, o)
    ensures Framed(s, u, Exec(s, u, sec, o))
  {
    hide Exec, Framed, AllPlaced, OracleFits;
    if Detaching(sec) {
      DetachingFramed(s, u, sec, o);
    } else if Paging(sec) {
      PagingFramed(s, u, sec, o);
    } else if Closing(sec) {
      ClosingFramed(s, u, sec, o);
    } else {
      UsingFramed(s, u, sec, o);
    }
  }

  // --- Along a run -----------------------------------------------------------------------------

  predicate NoBegin(moves: seq<Move>, t: nat) {
    forall i :: 0 <= i < |moves| && moves[i].Begin? ==> moves[i].t != t
  }

  /** A run reaches s from s0 by way of thread t beginning the operation, and no other since then. */
  ghost predicate CarriesOut(s0: State, t: nat, op: Op, s: State) {
    && Reachable(s0) && Enabled(s0, Begin(t, op))
    && exists moves :: NoBegin(moves, t) && Reaches(Next(s0, Begin(t, op)), moves, s)
  }

  lemma ExecuteFacts(s: State, u: nat, o: Oracle)
    requires Inv(s) && Enabled(s, Execute(u, o))
    ensures Executable(s, u, s.threads[u].sec, o) && Next(s, Execute(u, o)) == Exec(s, u, s.threads[u].sec, o)
  {
    hide Mutex, Owned, Counted, Detached, Pending, Removed, Cookies, Placed, Exec, InRange, OracleFits;
  }

  lemma NextFramed(s: State, m: Move)
    requires Inv(s) && Enabled(s, m)
    ensures Framed(s, m.t, Next(s, m))
  {
    hide Inv, Exec, OracleFits, InRange, Executable;
    match m {
      case Begin(t, op) =>
      case Acquire(t) =>
      case Execute(t, o) =>
        ExecuteFacts(s, t, o);
        hide Framed;
        ExecFramed(s, t, s.threads[t].sec, o);
    }
  }

  lemma AcquireDoing(s: State, op: Op, th: Thread)
    requires th.Wait? && Doing(s, op, th)
    ensures Doing(s, op, Run(th.sec))
  {
  }

  lemma NextDoing(s: State, m: Move, t: nat, op: Op)
    requires Inv(s) && Enabled(s, m) && t in s.threads && Doing(s, op, s.threads[t])
    requires m.Begin? ==> m.t != t
    ensures t in Next(s, m).threads && Doing(Next(s, m), op, Next(s, m).threads[t])
  {
    NextFramed(s, m);
    var s' := Next(s, m);
    hide Inv, Exec, Doing, OracleFits, InRange, Executable;
    if m.t == t && m.Acquire? {
      AcquireDoing(s, op, s.threads[t]);
      DoingStays(s, s', op, s'.threads[t]);
    } else if m.t == t {
      ExecuteFacts(s, t, m.o);
      ExecInside(s, t, s.threads[t].sec, m.o, op);
    } else {
      DoingStays(s, s', op, s.threads[t]);
    }
  }

  lemma {:induction false} RunDoing(s: State, moves: seq<Move>, s': State, t: nat, op: Op)
    requires Inv(s) && Reaches(s, moves, s') && NoBegin(moves, t)
    requires t in s.threads && Doing(s, op, s.threads[t])
    ensures Inv(s') && t in s'.threads && Doing(s', op, s'.threads[t])
    decreases |moves|
  {
    hide Inv, Next, Enabled, Doing;
    if moves != [] {
      NextInv(s, moves[0]);
      NextDoing(s, moves[0], t, op);
      RunDoing(Next(s, moves[0]), moves[1..], s', t, op);
    }
  }

  lemma BeginDoing(s: State, op: Op)
    ensures Doing(s, op, Wait(Entry0(op)))
  {
  }

  /** Until its operation is over, a thread is at one of the operation's positions. */
  lemma CarriesDoing(s0: State, t: nat, op: Op, s: State)
    requires CarriesOut(s0, t, op, s)
    ensures Inv(s) && t in s.threads && Doing(s, op, s.threads[t])
  {
    var moves :| NoBegin(moves, t) && Reaches(Next(s0, Begin(t, op)), moves, s);
    hide Inv, Doing, Enabled, Reachable, Reaches, Entry0;
    ReachableInv(s0);
    NextInv(s0, Begin(t, op));
    BeginDoing(Next(s0, Begin(t, op)), op);
    RunDoing(Next(s0, Begin(t, op)), moves, s, t, op);
  }

  // --- Whose sessions a call takes out of the map ------------------------------------------------

  ghost predicate Takes(s: State, sec: Section, o: Oracle, n: nat) {
    n < |s.sessions| &&
    match sec
    case CancelSessions(which) => which == None || Some(s.sessions[n].id) == which
    case Prune(_, _, _) => o.expired && s.Free(SessionMu(n))
    case RemoveSession(m) => n == m
    case CancelOne(id, m) => n == m && s.sessions[n].id == id
    case _ => false
  }

  lemma ExecTakes(s: State, t: nat, sec: Section, o: Oracle, n: nat)
    requires Executable(s, t, sec, o) && n in s.live && n !in Exec(s, t, sec, o).live
    ensures Takes(s, sec, o, n)
  {
    hide Placed, State.Free, CloseAllOf, Booked, HasMore, Opened, AfterLookup, AfterSnapshot, AfterSharedStart, AfterNextCheck;
  }

  /** The session that SearchStart pages is one it made itself. */
  ghost predicate OwnSession(base: nat, th: Thread) {
    th.Idle? || match th.sec
                case NextCheck(n) => base <= n
                case NextRequest(n) => base <= n
                case RemoveSession(n) => base <= n
                case _ => true
  }

  lemma ExecOwnSession(s: State, t: nat, sec: Section, o: Oracle, id: Id, base: nat)
    requires Executable(s, t, sec, o) && Starting(s, id, sec) && base <= |s.sessions| && OwnSession(base, Run(sec))
    ensures t in Exec(s, t, sec, o).threads && OwnSession(base, Exec(s, t, sec, o).threads[t])
  {
    hide AllPlaced, OracleFits, State.Free, Booked, HasMore, Opened, DoConnect, DoDisconnect, DoCloseAll, DoCloseEntry,
      DoCancelSessions, DoInstall, DoRunShared, DoRunDedicated, EntryOf, SessionOf, State.Current, InRange;
  }

  lemma DoingStart(s: State, id: Id, th: Thread)
    requires Doing(s, OpSearchStart(id), th) && !th.Idle?
    ensures Starting(s, id, th.sec)
  {
  }

  lemma NextOwnSession(s: State, m: Move, t: nat, id: Id, base: nat)
    requires Inv(s) && Enabled(s, m) && t in s.threads && (m.Begin? ==> m.t != t)
    requires Doing(s, OpSearchStart(id), s.threads[t]) && base <= |s.sessions| && OwnSession(base, s.threads[t])
    ensures t in Next(s, m).threads && OwnSession(base, Next(s, m).threads[t])
  {
    hide Inv, Exec, OracleFits, InRange, Executable, Starting, Doing;
    NextFramed(s, m);
    if m.Execute? && m.t == t {
      ExecuteFacts(s, t, m.o);
      DoingStart(s, id, s.threads[t]);
      ExecOwnSession(s, t, s.threads[t].sec, m.o, id, base);
    }
  }

  lemma {:induction false} RunOwnSession(s: State, moves: seq<Move>, s': State, t: nat, id: Id, base: nat)
    requires Inv(s) && Reaches(s, moves, s') && NoBegin(moves, t)
    requires t in s.threads && Doing(s, OpSearchStart(id), s.threads[t]) && base <= |s.sessions| && OwnSession(base, s.threads[t])
    ensures t in s'.threads && OwnSession(base, s'.threads[t])
    decreases |moves|
  {
    hide Inv, Enabled, Doing, OwnSession, Next;
    if moves != [] {
      NextInv(s, moves[0]);
      NextFramed(s, moves[0]);
      NextDoing(s, moves[0], t, OpSearchStart(id));
      NextOwnSession(s, moves[0], t, id, base);
      RunOwnSession(Next(s, moves[0]), moves[1..], s', t, id, base);
    }
  }

  lemma CarriesOwnSession(s0: State, t: nat, id: Id, s: State)
    requires CarriesOut(s0, t, OpSearchStart(id), s)
    ensures t in s.threads && OwnSession(|s0.sessions|, s.threads[t])
  {
    var op := OpSearchStart(id);
    var moves :| NoBegin(moves, t) && Reaches(Next(s0, Begin(t, op)), moves, s);
    assert Next(s0, Begin(t, op)) == s0.Go(t, Wait(Lookup(id, ForSearch)));
    hide Inv, Reachable, Reaches, Enabled;
    ReachableInv(s0);
    NextInv(s0, Begin(t, op));
    BeginDoing(Next(s0, Begin(t, op)), op);
    hide Next, Doing;
    RunOwnSession(Next(s0, Begin(t, op)), moves, s, t, id, |s0.sessions|);
  }

  /** What the calls may take; base is the number of sessions made before the call began. */
  ghost predicate MayTake(s: State, base: nat, op: Op, o: Oracle, n: nat)
    requires n < |s.sessions|
  {
    match op
    case OpConnect(id, _) => s.sessions[n].id == id
    case OpDisconnect(id) => s.sessions[n].id == id
    case OpCloseAll => true
    case OpWithConn(_, _) => false
    case OpDedicated(_) => false
    case OpSearchStart(_) => base <= n || (o.expired && s.Free(SessionMu(n)))
    case OpSearchNext(id, m) => (n == m && s.sessions[n].id == id) || (o.expired && s.Free(SessionMu(n)))
    case OpSearchCancel(id, m) => n == m && s.sessions[n].id == id
    case OpReap => o.expired && s.Free(SessionMu(n))
  }

  lemma TakesMeans(s: State, base: nat, op: Op, sec: Section, o: Oracle, n: nat)
    requires Doing(s, op, Run(sec)) && Takes(s, sec, o, n) && (op.OpSearchStart? ==> OwnSession(base, Run(sec)))
    ensures MayTake(s, base, op, o, n)
  {
    hide State.Free;
  }

  /**
   A call takes only its own sessions out of the map: Connect and Disconnect those of their id,
   SearchCancel and SearchNext the one they name under the id they name, SearchStart the one it
   made, and the last two, like the reaper, an expired one that no other call is using.
   */
  lemma TakesOnlyItsOwn(s0: State, t: nat, op: Op, s: State, o: Oracle, n: nat)
    requires CarriesOut(s0, t, op, s) && Enabled(s, Execute(t, o))
    requires n in s.live && n !in Next(s, Execute(t, o)).live
    ensures n < |s.sessions| && MayTake(s, |s0.sessions|, op, o, n)
  {
    hide CarriesOut, Inv, Exec, Next, Executable, OracleFits, InRange, OwnSession, Doing, Takes, MayTake;
    CarriesDoing(s0, t, op, s);
    ExecuteFacts(s, t, o);
    ExecTakes(s, t, s.threads[t].sec, o, n);
    if op.OpSearchStart? {
      CarriesOwnSession(s0, t, op.id, s);
    }
    TakesMeans(s, |s0.sessions|, op, s.threads[t].sec, o, n);
    TakenInRange(s, s.threads[t].sec, o, n);
  }

  lemma TakenInRange(s: State, sec: Section, o: Oracle, n: nat)
    requires Takes(s, sec, o, n)
    ensures n < |s.sessions|
  {
    hide State.Free;
  }

  // --- Whose entries and shared connections a call changes ----------------------------------------

  /** The call is about the connection of this id. */
  predicate About(op: Op, id: Id) {
    op.OpCloseAll? || ((op.OpConnect? || op.OpDisconnect? || op.OpWithConn? || op.OpDedicated?) && op.id == id)
  }

  predicate SameMapping(a: map<Id, nat>, b: map<Id, nat>, id: Id) {
    (id in a <==> id in b) && (id in a ==> a[id] == b[id])
  }

  ghost predicate ChangesEntryAt(sec: Section, e: nat, conn: Option<nat>) {
    match sec
    case CloseEntry(es, _) => es != [] && es[0] == e && conn == None
    case Install(f, c, _) => f == e && conn == Some(c)
    case RunShared(f, _) => f == e && conn == None
    case _ => false
  }

  lemma ExecEntries(s: State, t: nat, sec: Section, o: Oracle, e: nat)
    requires Executable(s, t, sec, o) && e < |s.entries| <= |Exec(s, t, sec, o).entries|
    ensures var x := Exec(s, t, sec, o).entries[e];
            x != s.entries[e] ==> x == s.entries[e].(conn := x.conn) && ChangesEntryAt(sec, e, x.conn)
  {
    hide AllPlaced, State.Free, CloseAllOf, Booked, HasMore, Opened, AfterLookup, AfterSnapshot, AfterSharedStart,
      AfterNextCheck;
  }

  lemma PageKeepsTable(s: State, t: nat, sec: Section, o: Oracle)
    requires Executable(s, t, sec, o) && (sec.AddSession? || sec.NextRequest?)
    ensures Exec(s, t, sec, o).table == s.table
  {
    hide AllPlaced, OracleFits, Booked, HasMore, Opened, TablesInRange;
  }

  lemma PagingKeepsTable(s: State, t: nat, sec: Section, o: Oracle)
    requires Executable(s, t, sec, o) && Paging(sec)
    ensures Exec(s, t, sec, o).table == s.table
  {
    if sec.AddSession? || sec.NextRequest? {
      PageKeepsTable(s, t, sec, o);
    }
    hide AllPlaced, OracleFits, TablesInRange, Booked, HasMore, Opened, AfterNextCheck, DoAddSession, DoNextRequest;
  }

  lemma ClosingKeepsTable(s: State, t: nat, sec: Section, o: Oracle)
    requires Executable(s, t, sec, o) && Closing(sec)
    ensures Exec(s, t, sec, o).table == s.table
  {
    hide AllPlaced, OracleFits, InRange, Enumerates, State.Free, CloseAllOf, Booked, HasMore, Opened, AfterLookup,
      AfterSnapshot, AfterSharedStart, AfterNextCheck, Continue;
  }

  lemma UsingKeepsTable(s: State, t: nat, sec: Section, o: Oracle)
    requires Executable(s, t, sec, o) && !Paging(sec) && !Closing(sec) && !Detaching(sec)
    ensures Exec(s, t, sec, o).table == s.table
  {
    hide AllPlaced, State.Free, CloseAllOf, Booked, HasMore, Opened, AfterLookup, AfterSnapshot, AfterSharedStart,
      AfterNextCheck;
  }

  lemma DetachingKeepsTable(s: State, t: nat, sec: Section, o: Oracle)
    requires Executable(s, t, sec, o) && (sec.CloseEntry? || sec.CancelSessions?)
    ensures Exec(s, t, sec, o).table == s.table
  {
    hide AllPlaced, State.Free, CloseAllOf, Booked, HasMore, Opened, AfterLookup, AfterSnapshot, AfterSharedStart,
      AfterNextCheck;
  }

  lemma ExecKeepsTable(s: State, t: nat, sec: Section, o: Oracle)
    requires Executable(s, t, sec, o) && !sec.ConnectTable? && !sec.DisconnectTable? && !sec.CloseAllTable?
    ensures Exec(s, t, sec, o).table == s.table
  {
    hide AllPlaced, OracleFits, Exec;
    if Paging(sec) {
      PagingKeepsTable(s, t, sec, o);
    } else if Closing(sec) {
      ClosingKeepsTable(s, t, sec, o);
    } else if Detaching(sec) {
      DetachingKeepsTable(s, t, sec, o);
    } else {
      UsingKeepsTable(s, t, sec, o);
    }
  }

  lemma ExecTables(s: State, t: nat, sec: Section, o: Oracle, id: Id)
    requires Executable(s, t, sec, o) && !SameMapping(s.table, Exec(s, t, sec, o).table, id)
    ensures (sec.ConnectTable? && sec.id == id) || (sec.DisconnectTable? && sec.id == id) || sec.CloseAllTable?
  {
    if sec.ConnectTable? {
      hide AllPlaced, OracleFits;
      assert Exec(s, t, sec, o) == DoConnect(s, t, sec.id, sec.config);
    } else if sec.DisconnectTable? {
      hide AllPlaced, OracleFits;
      assert Exec(s, t, sec, o) == DoDisconnect(s, t, sec.id);
    } else if !sec.CloseAllTable? {
      hide AllPlaced, OracleFits, Exec;
      ExecKeepsTable(s, t, sec, o);
    }
  }

  lemma ExecAdds(s: State, t: nat, sec: Section, o: Oracle, n: nat)
    requires Executable(s, t, sec, o) && n !in s.live && n in Exec(s, t, sec, o).live
    ensures n == |s.sessions| < |Exec(s, t, sec, o).sessions| && sec.AddSession? && sec.e < |s.entries|
    ensures Exec(s, t, sec, o).sessions[n].id == s.entries[sec.e].id
  {
    hide AllPlaced, State.Free, CloseAllOf, Booked, HasMore, Opened, AfterLookup, AfterSnapshot, AfterSharedStart,
      AfterNextCheck;
  }

  lemma EntryMeans(s: State, op: Op, sec: Section, e: nat, conn: Option<nat>)
    requires Doing(s, op, Run(sec)) && e < |s.entries| && ChangesEntryAt(sec, e, conn)
    ensures About(op, s.entries[e].id) && (conn.Some? ==> op.OpWithConn? || op.OpDedicated?)
  {
  }

  lemma TableMeans(s: State, op: Op, sec: Section, id: Id)
    requires Doing(s, op, Run(sec))
    requires (sec.ConnectTable? && sec.id == id) || (sec.DisconnectTable? && sec.id == id) || sec.CloseAllTable?
    ensures About(op, id) && (op.OpConnect? || op.OpDisconnect? || op.OpCloseAll?)
  {
  }

  lemma AddMeans(s: State, op: Op, sec: Section)
    requires Doing(s, op, Run(sec)) && sec.AddSession? && sec.e < |s.entries|
    ensures op == OpSearchStart(s.entries[sec.e].id)
  {
  }

  /**
   An entry changes only in the hands of a call about its id, and then only its shared connection:
   WithConn and the dedicated calls install and drop one, the others only drop it. The table changes
   at no id but the one of a Connect or Disconnect, or under CloseAll. Only SearchStart lists a
   session, under its own id.
   */
  lemma ChangesOnlyItsOwn(s0: State, t: nat, op: Op, s: State, o: Oracle)
    requires CarriesOut(s0, t, op, s) && Enabled(s, Execute(t, o))
    ensures |s.entries| <= |Next(s, Execute(t, o)).entries|
    ensures forall e {:trigger s.entries[e]} :: 0 <= e < |s.entries| ==>
              var x := Next(s, Execute(t, o)).entries[e];
              x != s.entries[e] ==> x == s.entries[e].(conn := x.conn) && About(op, x.id)
                                    && (x.conn.Some? ==> op.OpWithConn? || op.OpDedicated?)
    ensures forall id :: SameMapping(s.table, Next(s, Execute(t, o)).table, id)
                         || (About(op, id) && (op.OpConnect? || op.OpDisconnect? || op.OpCloseAll?))
    ensures forall n :: n in Next(s, Execute(t, o)).live && n !in s.live ==>
              n == |s.sessions| < |Next(s, Execute(t, o)).sessions| && op == OpSearchStart(Next(s, Execute(t, o)).sessions[n].id)
  {
    hide CarriesOut, Inv, Exec, Next, Executable, OracleFits, InRange, Doing, ChangesEntryAt, About, SameMapping, Framed;
    var sec := s.threads[t].sec;
    var s' := Next(s, Execute(t, o));
    CarriesDoing(s0, t, op, s);
    ExecuteFacts(s, t, o);
    NextSize(s, Execute(t, o));
    forall e | 0 <= e < |s.entries|
      ensures var x := s'.entries[e];
              x != s.entries[e] ==> x == s.entries[e].(conn := x.conn) && About(op, x.id)
                                    && (x.conn.Some? ==> op.OpWithConn? || op.OpDedicated?)
    {
      ExecEntries(s, t, sec, o, e);
      if s'.entries[e] != s.entries[e] {
        EntryMeans(s, op, sec, e, s'.entries[e].conn);
      }
    }
    forall id | !SameMapping(s.table, s'.table, id)
      ensures About(op, id) && (op.OpConnect? || op.OpDisconnect? || op.OpCloseAll?)
    {
      ExecTables(s, t, sec, o, id);
      TableMeans(s, op, sec, id);
    }
    forall n | n in s'.live && n !in s.live
      ensures n == |s.sessions| < |s'.sessions| && op == OpSearchStart(s'.sessions[n].id)
    {
      ExecAdds(s, t, sec, o, n);
      AddMeans(s, op, sec);
    }
  }

  lemma NextSize(s: State, m: Move)
    requires Inv(s) && Enabled(s, m)
    ensures |s.entries| <= |Next(s, m).entries|
  {
    hide Inv, Enabled, Next;
    NextFramed(s, m);
  }

  // --- What a call must have taken away when it returns -------------------------------------------

  predicate Covers(s: State, which: Option<Id>, n: nat) {
    n < |s.sessions| && (which == None || Some(s.sessions[n].id) == which)
  }

  /** The session is out of the map, or the thread is still on its way to taking it out. */
  ghost predicate Doomed(s: State, t: nat, which: Option<Id>, n: nat) {
    && t in s.threads && Covers(s, which, n)
    && (n in s.live ==> !s.threads[t].Idle?
                        && ((s.threads[t].sec.CloseEntry? && s.threads[t].sec.cancel == which)
                            || s.threads[t].sec == CancelSessions(which)))
  }

  lemma ExecDoomed(s: State, t: nat, o: Oracle, which: Option<Id>, n: nat)
    requires Inv(s) && Enabled(s, Execute(t, o)) && Doomed(s, t, which, n) && n in s.live
    ensures var s' := Next(s, Execute(t, o)); n in s'.live ==> Doomed(s', t, which, n)
  {
    NextFramed(s, Execute(t, o));
    hide Inv, OracleFits, CloseAllOf, DoAddSession, DoNextRequest, DoRemove, DoCloseSession, DoFinishClose, DoPrune,
      DoInstall, DoRunShared, DoRunDedicated, DoConnect, DoDisconnect, DoCloseAll, AfterLookup, AfterSnapshot,
      AfterSharedStart, AfterNextCheck;
  }

  lemma DoomedElsewhere(s: State, u: nat, s': State, t: nat, which: Option<Id>, n: nat)
    requires Doomed(s, t, which, n) && Framed(s, u, s') && (u != t || n !in s.live)
    ensures Doomed(s', t, which, n)
  {
  }

  lemma DoomedAcquires(s: State, t: nat, which: Option<Id>, n: nat)
    requires Doomed(s, t, which, n) && s.threads[t].Wait?
    ensures Doomed(s.Go(t, Run(s.threads[t].sec)), t, which, n)
  {
  }

  lemma DoomedGone(s: State, s': State, t: nat, which: Option<Id>, n: nat)
    requires Doomed(s, t, which, n) && SameIds(s, s') && t in s'.threads && n !in s'.live
    ensures Doomed(s', t, which, n)
  {
  }

  lemma NextDoomed(s: State, m: Move, t: nat, which: Option<Id>, n: nat)
    requires Inv(s) && Enabled(s, m) && Doomed(s, t, which, n) && (m.Begin? ==> m.t != t)
    ensures Doomed(Next(s, m), t, which, n)
  {
    NextFramed(s, m);
    FramedParts(s, m.t, Next(s, m));
    hide Inv, OracleFits, InRange, Exec, Executable, Doomed, Framed, SameIds;
    if m.t != t || n !in s.live {
      DoomedElsewhere(s, m.t, Next(s, m), t, which, n);
    } else if m.Acquire? {
      DoomedAcquires(s, t, which, n);
    } else {
      ExecDoomed(s, t, m.o, which, n);
      if n !in Next(s, m).live {
        DoomedGone(s, Next(s, m), t, which, n);
      }
    }
  }

  lemma FramedParts(s: State, u: nat, s': State)
    requires Framed(s, u, s')
    ensures SameIds(s, s') && u in s'.threads
  {
    hide SameIds;
  }

  lemma {:induction false} RunDoomed(s: State, moves: seq<Move>, s': State, t: nat, which: Option<Id>, n: nat)
    requires Inv(s) && Reaches(s, moves, s') && NoBegin(moves, t) && Doomed(s, t, which, n)
    ensures Inv(s') && Doomed(s', t, which, n)
    decreases |moves|
  {
    hide Inv, Next, Enabled, Doomed;
    if moves != [] {
      NextInv(s, moves[0]);
      NextDoomed(s, moves[0], t, which, n);
      RunDoomed(Next(s, moves[0]), moves[1..], s', t, which, n);
    }
  }

  /** What Connect, Disconnect and CloseAll find at the table: whether there is anything to detach. */
  predicate Nothing(s: State, op: Op) {
    match op
    case OpConnect(id, config) => id in s.table && s.table[id] < |s.entries| && s.entries[s.table[id]].config == config
    case OpDisconnect(id) => id !in s.table
    case _ => false
  }

  predicate Detaches(op: Op, n: Session) {
    op.OpCloseAll? || ((op.OpConnect? || op.OpDisconnect?) && n.id == op.id)
  }

  /** The sessions a detaching call is after: those of its id, or all. */
  function Whose(op: Op): Option<Id> {
    match op
    case OpConnect(id, _) => Some(id)
    case OpDisconnect(id) => Some(id)
    case _ => None
  }

  predicate Detacher(op: Op) {
    op.OpConnect? || op.OpDisconnect? || op.OpCloseAll?
  }

  /** After the table step: at rest, or on the way to the sessions. */
  ghost predicate TableDone(s: State, t: nat, op: Op, s': State) {
    && t in s'.threads && s'.live == s.live && s'.sessions == s.sessions
    && (s'.threads[t] == Idle <==> Nothing(s, op))
    && (s'.threads[t] != Idle ==>
          (s'.threads[t].sec.CloseEntry? && s'.threads[t].sec.cancel == Whose(op)) || s'.threads[t].sec == CancelSessions(Whose(op)))
  }

  lemma TableMoves(s: State, t: nat, op: Op, o: Oracle)
    requires AllPlaced(s) && TablesInRange(s) && t in s.threads && Detacher(op)
    ensures op.OpConnect? ==> TableDone(s, t, op, DoConnect(s, t, op.id, op.config))
    ensures op.OpDisconnect? ==> TableDone(s, t, op, DoDisconnect(s, t, op.id))
    ensures op.OpCloseAll? ==> TableDone(s, t, op, DoCloseAll(s, t, o.order))
  {
    hide Placed;
  }

  lemma TableIs(s: State, t: nat, op: Op, o: Oracle)
    requires Inv(s) && Enabled(s, Execute(t, o)) && Detacher(op) && s.threads[t] == Run(Entry0(op))
    ensures TableDone(s, t, op, Next(s, Execute(t, o)))
  {
    ExecuteFacts(s, t, o);
    hide Inv, OracleFits, AllPlaced, Placed, TableDone, DoConnect, DoDisconnect, DoCloseAll;
    TableMoves(s, t, op, o);
  }

  lemma TableStep(s: State, t: nat, op: Op, o: Oracle)
    requires Inv(s) && Enabled(s, Execute(t, o)) && Detacher(op) && s.threads[t] == Run(Entry0(op))
    ensures var s' := Next(s, Execute(t, o)); t in s'.threads && (s'.threads[t] == Idle <==> Nothing(s, op))
    ensures var s' := Next(s, Execute(t, o));
            !Nothing(s, op) ==> forall n :: n in s.live && n < |s.sessions| && Detaches(op, s.sessions[n])
                                  ==> Doomed(s', t, Whose(op), n)
  {
    hide Inv, OracleFits, Next, Nothing, Enabled;
    TableIs(s, t, op, o);
  }

  /**
   Connect, Disconnect and CloseAll end at the table exactly when there is nothing to detach. When they
   go on, every session of the id, or every session at all, that was in the map at the table step is
   out of it when the call returns, and closed or in the hands of another thread about to close it.
   */
  lemma TakesAllItsOwn(s1: State, t: nat, op: Op, o: Oracle, moves: seq<Move>, s: State)
    requires Reachable(s1) && Detacher(op) && Enabled(s1, Execute(t, o)) && s1.threads[t] == Run(Entry0(op))
    requires Reaches(Next(s1, Execute(t, o)), moves, s) && NoBegin(moves, t)
    ensures t in Next(s1, Execute(t, o)).threads && (Next(s1, Execute(t, o)).threads[t] == Idle <==> Nothing(s1, op))
    ensures !Nothing(s1, op) && t in s.threads && s.threads[t] == Idle ==>
              forall n :: n in s1.live && n < |s1.sessions| && Detaches(op, s1.sessions[n]) ==>
                n !in s.live && n < |s.sessions| && (s.sessions[n].closed || PendingSession(s, n))
  {
    ReachableInv(s1);
    var s2 := Next(s1, Execute(t, o));
    NextInv(s1, Execute(t, o));
    TableStep(s1, t, op, o);
    hide Inv, Next, Enabled, Reachable, Reaches, Doomed, Nothing, Detaches, PendingSession;
    if !Nothing(s1, op) && t in s.threads && s.threads[t] == Idle {
      forall n | n in s1.live && n < |s1.sessions| && Detaches(op, s1.sessions[n])
        ensures n !in s.live && n < |s.sessions| && (s.sessions[n].closed || PendingSession(s, n))
      {
        RunDoomed(s2, moves, s, t, Whose(op), n);
        DoomedAtRest(s, t, Whose(op), n);
      }
    }
  }

  lemma DoomedAtRest(s: State, t: nat, which: Option<Id>, n: nat)
    requires Inv(s) && Doomed(s, t, which, n) && s.threads[t] == Idle
    ensures n !in s.live && n < |s.sessions| && (s.sessions[n].closed || PendingSession(s, n))
  {
    hide Mutex, AllPlaced, Owned, Counted, Detached, Pending, Cookies, PendingSession;
  }

  // --- How often a call runs its function -----------------------------------------------------------

  /** The move runs fn for thread t, on the shared or on a dedicated connection. */
  predicate RunsFn(s: State, m: Move, t: nat) {
    m.Execute? && m.t == t && t in s.threads && s.threads[t].Run? && (s.threads[t].sec.RunShared? || s.threads[t].sec.RunDedicated?)
  }

  ghost function Tries(s: State, moves: seq<Move>, t: nat): nat
    decreases |moves|
  {
    if moves == [] || !Enabled(s, moves[0]) then 0
    else (if RunsFn(s, moves[0], t) then 1 else 0) + Tries(Next(s, moves[0]), moves[1..], t)
  }

  function OfAttempt(attempt: Attempt): nat {
    if attempt == First then 2 else 1
  }

  /** How often a thread using a connection can still run fn. */
  function TriesLeft(th: Thread): nat {
    if th.Idle? then 0 else
    match th.sec
    case Lookup(_, ForShared(attempt)) => OfAttempt(attempt)
    case SharedStart(_, attempt) => OfAttempt(attempt)
    case CheckBeforeDial(_, attempt) => OfAttempt(attempt)
    case DialShared(_, attempt) => OfAttempt(attempt)
    case CheckAfterDial(_, _, attempt) => OfAttempt(attempt)
    case Install(_, _, attempt) => OfAttempt(attempt)
    case RunShared(_, attempt) => OfAttempt(attempt)
    case DialDedicated(_, again) => if again then 1 else 2
    case CheckDedicated(_, _, again) => if again then 1 else 2
    case RunDedicated(_, _, again) => if again then 1 else 2
    case _ => 2
  }

  predicate UsesConn(op: Op) {
    op.OpWithConn? || op.OpDedicated?
  }

  predicate Using(sec: Section) {
    !Detaching(sec) && !Paging(sec) && !Closing(sec) && (sec.Lookup? || sec.Snapshot? ==> !sec.use.ForSearch?)
  }

  lemma UsesMeans(s: State, op: Op, sec: Section)
    requires UsesConn(op) && Doing(s, op, Run(sec))
    ensures Using(sec)
  {
  }

  lemma ExecTries(s: State, t: nat, sec: Section, o: Oracle)
    requires Executable(s, t, sec, o) && Using(sec)
    ensures t in Exec(s, t, sec, o).threads
    ensures TriesLeft(Exec(s, t, sec,
      o).threads[t]) + (if sec.RunShared? || sec.RunDedicated? then 1 else 0) <= TriesLeft(Run(sec))
  {
    hide AllPlaced, OracleFits, InRange, State.Current, DoConnect, DoDisconnect, DoCloseAll, DoCloseEntry, DoCancelSessions,
      DoAddSession, DoNextRequest, DoRemove, DoCloseSession, DoFinishClose, DoPrune;
  }

  lemma NextTries(s: State, m: Move, t: nat, op: Op)
    requires Inv(s) && Enabled(s, m) && UsesConn(op) && t in s.threads && Doing(s, op, s.threads[t]) && (m.Begin? ==> m.t != t)
    ensures t in Next(s, m).threads
    ensures TriesLeft(Next(s, m).threads[t]) + (if RunsFn(s, m, t) then 1 else 0) <= TriesLeft(s.threads[t])
  {
    hide Inv, Exec, OracleFits, InRange, Executable, Doing, UsesConn;
    NextFramed(s, m);
    if m.Execute? && m.t == t {
      ExecuteFacts(s, t, m.o);
      UsesMeans(s, op, s.threads[t].sec);
      ExecTries(s, t, s.threads[t].sec, m.o);
    }
  }

  lemma {:induction false} RunTries(s: State, moves: seq<Move>, s': State, t: nat, op: Op)
    requires Inv(s) && Reaches(s, moves, s') && NoBegin(moves, t) && UsesConn(op)
    requires t in s.threads && Doing(s, op, s.threads[t])
    ensures Tries(s, moves, t) <= TriesLeft(s.threads[t])
    decreases |moves|
  {
    hide Inv, Next, Enabled, Doing, UsesConn, RunsFn, TriesLeft;
    if moves != [] {
      NextInv(s, moves[0]);
      NextDoing(s, moves[0], t, op);
      NextTries(s, moves[0], t, op);
      RunTries(Next(s, moves[0]), moves[1..], s', t, op);
    }
  }

  /** WithConnOnce runs fn at most once; WithConn and the dedicated calls at most twice. */
  lemma FnRunsAtMostTwice(s0: State, t: nat, op: Op, moves: seq<Move>, s: State)
    requires Reachable(s0) && Enabled(s0, Begin(t, op)) && UsesConn(op)
    requires Reaches(Next(s0, Begin(t, op)), moves, s) && NoBegin(moves, t)
    ensures Tries(Next(s0, Begin(t, op)), moves, t) <= if op.OpWithConn? && !op.retry then 1 else 2
  {
    var s1 := Next(s0, Begin(t, op));
    assert s1.threads[t] == Wait(Entry0(op)) && TriesLeft(s1.threads[t]) == if op.OpWithConn? && !op.retry then 1 else 2;
    hide Inv, Enabled, Reachable, Reaches, Next, TriesLeft, Doing, UsesConn;
    ReachableInv(s0);
    NextInv(s0, Begin(t, op));
    BeginDoing(s1, op);
    RunTries(s1, moves, s, t, op);
  }

  /**
   fn runs on the shared connection of the entry. The call goes on exactly when it was the first run of
   WithConn and the connection broke; a connection that broke is closed, but not in the second run.
   */
  lemma OnlyABreakIsRetried(s: State, t: nat, e: nat, attempt: Attempt, o: Oracle)
    requires Reachable(s) && Enabled(s, Execute(t, o)) && s.threads[t] == Run(RunShared(e, attempt))
    ensures e < |s.entries| && s.entries[e].conn.Some? && s.entries[e].conn.value in s.owner
    ensures var s' := Next(s, Execute(t, o)); t in s'.threads && e < |s'.entries|
    ensures var s' := Next(s, Execute(t, o));
            s'.threads[t] == if o.outcome == Broken && attempt == First then Wait(CheckBeforeDial(e, Retried)) else Idle
    ensures var s' := Next(s, Execute(t, o));
            if o.outcome == Broken && attempt != Retried
            then s'.entries[e].conn == None && s.entries[e].conn.value !in s'.owner
            else s'.entries == s.entries && s'.owner == s.owner
  {
    ReachableInv(s);
    SharedIsOpen(s, t, e, attempt);
    hide Inv, Reachable;
  }

  /**
   fn runs on a connection of the call's own, which is closed afterwards whatever happened; only a break
   in the first run is dialled again. Where the first dial fails the call falls back to WithConn.
   */
  lemma DedicatedGoesOn(s: State, t: nat, o: Oracle)
    requires Reachable(s) && Enabled(s, Execute(t, o)) && (s.threads[t].sec.RunDedicated? || s.threads[t].sec.DialDedicated?)
    ensures var sec := s.threads[t].sec; var s' := Next(s, Execute(t, o));
            && sec.e < |s.entries| && s'.entries == s.entries && t in s'.threads
            && match sec
               case RunDedicated(e, c, again) =>
                 && c in s.owner && s.owner[c] == ByThread(t) && c !in s'.owner
                 && s'.threads[t] == if o.outcome == Broken && !again then Run(DialDedicated(e, true)) else Idle
               case DialDedicated(e, again) =>
                 if o.dialOk then s'.threads[t] == Wait(CheckDedicated(e, |s.issued|, again))
                 else s'.threads[t] == if again then Idle else Wait(Lookup(s.entries[e].id, ForShared(First)))
               case _ => true
  {
    ReachableInv(s);
    hide Mutex, Counted, Detached, Pending, Removed, Cookies, OwnerHas, Reachable;
    assert Placed(s, s.threads[t]);
  }

  lemma SharedIsOpen(s: State, t: nat, e: nat, attempt: Attempt)
    requires Inv(s) && t in s.threads && s.threads[t] == Run(RunShared(e, attempt))
    ensures e < |s.entries| && s.entries[e].conn.Some? && s.entries[e].conn.value in s.owner
  {
    hide Mutex, Counted, Detached, Pending, Removed, Cookies, OwnerHas;
    assert Placed(s, s.threads[t]);
  }

  /** The six moves of a reconnect, nobody else holding the table. */
  function Reconnect(t: nat, o: Oracle): seq<Move> {
    [Acquire(t), Execute(t, o), Execute(t, o), Acquire(t), Execute(t, o), Execute(t, o)]
  }

  lemma SixMoves(s: State, ms: seq<Move>, a: State, b: State, c: State, d: State, f: State, g: State)
    requires |ms| == 6 && Enabled(s, ms[0]) && a == Next(s, ms[0]) && Enabled(a, ms[1]) && b == Next(a, ms[1])
    requires Enabled(b, ms[2]) && c == Next(b, ms[2]) && Enabled(c, ms[3]) && d == Next(c, ms[3])
    requires Enabled(d, ms[4]) && f == Next(d, ms[4]) && Enabled(f, ms[5]) && g == Next(f, ms[5])
    ensures Reaches(s, ms, g)
  {
    hide Enabled, Next;
    assert Reaches(f, ms[5..], g) by {
      assert ms[5..] == [ms[5]] && ms[5..][1..] == [];
    }
    assert ms[4..][1..] == ms[5..] && ms[3..][1..] == ms[4..] && ms[2..][1..] == ms[3..] && ms[1..][1..] == ms[2..];
    assert Reaches(d, ms[4..], g);
    assert Reaches(c, ms[3..], g);
    assert Reaches(b, ms[2..], g);
    assert Reaches(a, ms[1..], g);
  }

  lemma AcquireTable(s: State, t: nat, sec: Section)
    requires t in s.threads && s.threads[t] == Wait(sec) && Entering(sec) == Some(TableMu) && s.Free(TableMu)
    ensures Enabled(s, Acquire(t)) && Next(s, Acquire(t)) == s.Go(t, Run(sec))
  {
    hide State.Free;
  }

  lemma CheckAndDial(s: State, t: nat, e: nat, o: Oracle)
    requires TablesInRange(s) && t in s.threads && e < |s.entries| && s.Current(e)
    requires s.threads[t] == Run(CheckBeforeDial(e, Retried))
    ensures Enabled(s, Execute(t, o)) && Next(s, Execute(t, o)) == s.Go(t, Run(DialShared(e, Retried)))
  {
  }

  lemma DialNew(s: State, t: nat, e: nat, o: Oracle)
    requires TablesInRange(s) && t in s.threads && e < |s.entries| && o.dialOk && s.threads[t] == Run(DialShared(e, Retried))
    ensures Enabled(s, Execute(t, o))
    ensures Next(s, Execute(t, o)) == s.Dialled(t).Go(t, Wait(CheckAfterDial(e, |s.issued|, Retried)))
  {
  }

  lemma CheckAgain(s: State, t: nat, e: nat, c: nat, o: Oracle)
    requires TablesInRange(s) && t in s.threads && e < |s.entries| && s.Current(e)
    requires s.threads[t] == Run(CheckAfterDial(e, c, Retried))
    ensures Enabled(s, Execute(t, o)) && Next(s, Execute(t, o)) == s.Go(t, Run(Install(e, c, Retried)))
  {
  }

  lemma InstallNew(s: State, t: nat, e: nat, c: nat, o: Oracle)
    requires TablesInRange(s) && t in s.threads && e < |s.entries| && s.threads[t] == Run(Install(e, c, Retried))
    ensures Enabled(s, Execute(t, o))
    ensures var s' := Next(s, Execute(t, o));
            t in s'.threads && s'.threads[t] == Run(RunShared(e, Retried)) && e < |s'.entries| && s'.entries[e].conn == Some(c)
  {
  }

  lemma StillFree(s: State, s': State, t: nat)
    requires s.Free(TableMu) && t in s'.threads && s'.threads == s.threads[t := s'.threads[t]] && TableMu !in Holds(s'.threads[t])
    ensures s'.Free(TableMu)
  {
    hide Holds;
  }

  lemma DialPart(s: State, t: nat, e: nat, o: Oracle) returns (a: State, b: State, c: State)
    requires TablesInRange(s) && t in s.threads && s.threads[t] == Wait(CheckBeforeDial(e, Retried)) && s.Free(TableMu)
    requires e < |s.entries| && s.Current(e) && o.dialOk
    ensures Enabled(s, Acquire(t)) && a == Next(s, Acquire(t)) && Enabled(a, Execute(t, o)) && b == Next(a, Execute(t, o))
    ensures Enabled(b, Execute(t, o)) && c == Next(b, Execute(t, o))
    ensures TablesInRange(c) && t in c.threads && c.threads[t] == Wait(CheckAfterDial(e, |s.issued|, Retried)) && c.Free(TableMu)
    ensures e < |c.entries| && c.Current(e)
  {
    hide Enabled, Next, State.Free, Holds;
    AcquireTable(s, t, CheckBeforeDial(e, Retried));
    a := s.Go(t, Run(CheckBeforeDial(e, Retried)));
    CheckAndDial(a, t, e, o);
    b := a.Go(t, Run(DialShared(e, Retried)));
    DialNew(b, t, e, o);
    c := b.Dialled(t).Go(t, Wait(CheckAfterDial(e, |s.issued|, Retried)));
    HoldsNoTable(e, |s.issued|);
    StillFree(s, c, t);
  }

  lemma InstallPart(c: State, t: nat, e: nat, k: nat, o: Oracle) returns (d: State, f: State, g: State)
    requires TablesInRange(c) && t in c.threads && c.threads[t] == Wait(CheckAfterDial(e, k, Retried)) && c.Free(TableMu)
    requires e < |c.entries| && c.Current(e)
    ensures Enabled(c, Acquire(t)) && d == Next(c, Acquire(t)) && Enabled(d, Execute(t, o)) && f == Next(d, Execute(t, o))
    ensures Enabled(f, Execute(t, o)) && g == Next(f, Execute(t, o))
    ensures t in g.threads && g.threads[t] == Run(RunShared(e, Retried)) && e < |g.entries| && g.entries[e].conn == Some(k)
  {
    hide Enabled, Next, State.Free, Holds;
    AcquireTable(c, t, CheckAfterDial(e, k, Retried));
    d := c.Go(t, Run(CheckAfterDial(e, k, Retried)));
    CheckAgain(d, t, e, k, o);
    f := d.Go(t, Run(Install(e, k, Retried)));
    InstallNew(f, t, e, k, o);
    g := Next(f, Execute(t, o));
  }

  lemma HoldsNoTable(e: nat, c: nat)
    ensures TableMu !in Holds(Wait(CheckAfterDial(e, c, Retried)))
  {
  }

  lemma ReachableTables(s: State)
    requires Reachable(s)
    ensures TablesInRange(s)
  {
    ReachableInv(s);
    hide Reachable, Mutex, Owned, Counted, Detached, Pending, Removed, Cookies, Placed;
  }

  /** After a break the call can run fn once more, on a new connection, if its entry is still current. */
  lemma BreakCanReconnect(s: State, t: nat, e: nat, o: Oracle)
    requires Reachable(s) && t in s.threads && s.threads[t] == Wait(CheckBeforeDial(e, Retried)) && s.Free(TableMu)
    requires e < |s.entries| && s.Current(e) && o.dialOk
    ensures exists s' :: Reaches(s, Reconnect(t, o), s') && t in s'.threads && s'.threads[t] == Run(RunShared(e, Retried))
                         && e < |s'.entries| && s'.entries[e].conn == Some(|s.issued|)
  {
    hide Reachable, Enabled, Next, Reaches, State.Free, TablesInRange, State.Current;
    ReachableTables(s);
    var a, b, c := DialPart(s, t, e, o);
    var d, f, g := InstallPart(c, t, e, |s.issued|, o);
    SixMoves(s, Reconnect(t, o), a, b, c, d, f, g);
  }

  // --- When a call goes on, and when it ends ------------------------------------------------------

  /** What a thread has found out, and the locks it held meanwhile, when it enters a section that relies
      on it. */
  ghost predicate Guarded(s: State, th: Thread, next: Thread, o: Oracle) {
    next.Idle? || match next.sec
                  case DialShared(e, _) => e < |s.entries| && s.Current(e) && EntryMu(e) in Holds(th) && TableMu in Holds(th)
                  case Install(e, _, _) => e < |s.entries| && s.Current(e) && EntryMu(e) in Holds(th) && TableMu in Holds(th)
                  case RunDedicated(e, _, _) => e < |s.entries| && s.Current(e) && TableMu in Holds(th)
                  case AddSession(e, _) => e < |s.entries| && s.Current(e) && TableMu in Holds(th)
                  case DialSession(_) => |s.live| < 16 && SessionsMu in Holds(th)
                  case NextRequest(n) =>
                    n < |s.sessions| && !s.sessions[n].closed && s.sessions[n].conn.Some? && !o.expired && SessionMu(n) in Holds(th)
                  case _ => true
  }

  lemma UsingGuarded(s: State, t: nat, sec: Section, o: Oracle)
    requires Executable(s, t, sec, o) && !Detaching(sec) && !Closing(sec) && !Paging(sec)
    ensures t in Exec(s, t, sec, o).threads && Guarded(s, Run(sec), Exec(s, t, sec, o).threads[t], o)
  {
    hide AllPlaced, OracleFits, DoConnect, DoDisconnect, DoCloseAll, DoCloseEntry, DoCancelSessions, DoAddSession,
      DoNextRequest, DoRemove, DoCloseSession, DoFinishClose, DoPrune, AfterNextCheck;
  }

  lemma RequestThread(s: State, t: nat, n: nat, o: Oracle)
    requires n < |s.sessions| && s.sessions[n].conn.Some? && s.sessions[n].conn.value < |s.issued|
    ensures t in DoNextRequest(s, t, n, o).threads && DoNextRequest(s, t, n, o).threads[t] in {Idle, Wait(RemoveSession(n))}
  {
    hide Booked, HasMore;
  }

  lemma AddThread(s: State, t: nat, e: nat, c: nat, limit: nat)
    requires e < |s.entries|
    ensures t in DoAddSession(s, t, e, c, limit).threads
    ensures DoAddSession(s, t, e, c, limit).threads[t] in {Idle, Wait(NextCheck(|s.sessions|))}
  {
    hide Opened;
  }

  lemma RoomGuarded(s: State, t: nat, sec: Section, o: Oracle)
    requires Executable(s, t, sec, o) && (sec.CountSessions? || sec.DialSession? || sec.CheckSession?)
    ensures t in Exec(s, t, sec, o).threads && Guarded(s, Run(sec), Exec(s, t, sec, o).threads[t], o)
  {
    hide AllPlaced, OracleFits, TablesInRange;
  }

  lemma CheckGuarded(s: State, t: nat, sec: Section, o: Oracle)
    requires Executable(s, t, sec, o) && (sec.NextCheck?)
    ensures t in Exec(s, t, sec, o).threads && Guarded(s, Run(sec), Exec(s, t, sec, o).threads[t], o)
  {
    hide AllPlaced, OracleFits, TablesInRange, State.Current;
  }

  lemma RemovalGuarded(s: State, t: nat, sec: Section, o: Oracle)
    requires Executable(s, t, sec, o) && (sec.RemoveSession? || sec.FindSession? || sec.CancelOne?)
    ensures t in Exec(s, t, sec, o).threads && Guarded(s, Run(sec), Exec(s, t, sec, o).threads[t], o)
  {
    hide AllPlaced, OracleFits, TablesInRange, Holds, State.Current;
  }

  lemma PageGuarded(s: State, t: nat, sec: Section, o: Oracle)
    requires Executable(s, t, sec, o) && (sec.AddSession? || sec.NextRequest?)
    ensures t in Exec(s, t, sec, o).threads && Guarded(s, Run(sec), Exec(s, t, sec, o).threads[t], o)
  {
    if sec.NextRequest? {
      RequestThread(s, t, sec.n, o);
    } else {
      AddThread(s, t, sec.e, sec.c, o.limit);
    }
    hide AllPlaced, OracleFits, TablesInRange, DoNextRequest, DoAddSession, Holds, State.Current;
  }

  lemma PagingGuarded(s: State, t: nat, sec: Section, o: Oracle)
    requires Executable(s, t, sec, o) && Paging(sec)
    ensures t in Exec(s, t, sec, o).threads && Guarded(s, Run(sec), Exec(s, t, sec, o).threads[t], o)
  {
    hide Executable, Exec, Guarded;
    if sec.CountSessions? || sec.DialSession? || sec.CheckSession? {
      RoomGuarded(s, t, sec, o);
    } else if sec.NextCheck? {
      CheckGuarded(s, t, sec, o);
    } else if sec.AddSession? || sec.NextRequest? {
      PageGuarded(s, t, sec, o);
    } else {
      RemovalGuarded(s, t, sec, o);
    }
  }

  lemma OtherGuarded(s: State, t: nat, sec: Section, o: Oracle)
    requires Executable(s, t, sec, o) && (Detaching(sec) || Closing(sec))
    ensures t in Exec(s, t, sec, o).threads && Guarded(s, Run(sec), Exec(s, t, sec, o).threads[t], o)
  {
    hide AllPlaced, OracleFits, State.Free, Holds, State.Current, InRange, DoAddSession, DoNextRequest, DoRemove, DoInstall,
      DoRunShared, DoRunDedicated, AfterLookup, AfterSnapshot, AfterSharedStart, AfterNextCheck;
  }

  lemma ExecGuarded(s: State, t: nat, sec: Section, o: Oracle)
    requires Executable(s, t, sec, o)
    ensures t in Exec(s, t, sec, o).threads && Guarded(s, Run(sec), Exec(s, t, sec, o).threads[t], o)
  {
    hide AllPlaced, OracleFits, Exec, Guarded, Executable;
    if Detaching(sec) || Closing(sec) {
      OtherGuarded(s, t, sec, o);
    } else if Paging(sec) {
      PagingGuarded(s, t, sec, o);
    } else {
      UsingGuarded(s, t, sec, o);
    }
  }

  /**
   A connection is dialled for an entry, stored in it or used for a call only while, or after, the entry
   was found current under the table's lock; a session is dialled only where there was room for it; and a
   page is asked for only of a session found open and not expired under its lock.
   */
  lemma GoesOnOnlyWhenSafe(s: State, t: nat, o: Oracle)
    requires Reachable(s) && Enabled(s, Execute(t, o))
    ensures t in Next(s, Execute(t, o)).threads && Guarded(s, s.threads[t], Next(s, Execute(t, o)).threads[t], o)
  {
    hide Inv, Reachable, Exec, Next, Executable, Guarded, OracleFits, InRange;
    ReachableInv(s);
    ExecuteFacts(s, t, o);
    ExecGuarded(s, t, s.threads[t].sec, o);
  }

  /** The reasons for a call to end in a section: nothing known under the id, a replaced entry, a failed
      dial, no room, no such session, or its work is done. */
  ghost predicate MayEnd(s: State, sec: Section, o: Oracle) {
    match sec
    case ConnectTable(id, config) => Nothing(s, OpConnect(id, config))
    case DisconnectTable(id) => id !in s.table
    case Lookup(id, _) => id !in s.table
    case CheckBeforeDial(e, _) => e < |s.entries| && !s.Current(e)
    case CheckAfterDial(e, _, _) => e < |s.entries| && !s.Current(e)
    case CheckDedicated(e, _, _) => e < |s.entries| && !s.Current(e)
    case CheckSession(e, _) => e < |s.entries| && !s.Current(e)
    case DialShared(_, _) => !o.dialOk
    case DialDedicated(_, again) => !o.dialOk && again
    case DialSession(_) => !o.dialOk
    case RunShared(_, attempt) => o.outcome != Broken || attempt != First
    case RunDedicated(_, _, again) => o.outcome != Broken || again
    case CountSessions(_) => |s.live| >= 16
    case AddSession(_, _) => |s.live| >= 16
    case NextRequest(n) => n < |s.sessions| && o.outcome == Fine && HasMore(s.sessions[n].book, o.entries, o.cookie)
    case FindSession(id, n) => !(n in s.live && n < |s.sessions| && s.sessions[n].id == id)
    case CancelOne(id, n) => !(n in s.live && n < |s.sessions| && s.sessions[n].id == id)
    case RemoveSession(n) => n !in s.live
    case CancelSessions(which) => forall n :: n in s.live && n < |s.sessions| ==> which.Some? && s.sessions[n].id != which.value
    case Prune(todo, expired, after) => todo == {} && expired == [] && after == Return
    case CloseSession(ns, after) => |ns| == 1 && after == Return
    case FinishClose(_, _, ns, after) => ns == [] && after == Return
    case _ => false
  }

  lemma UsingEnds(s: State, t: nat, sec: Section, o: Oracle)
    requires Executable(s, t, sec, o) && !Detaching(sec) && !Closing(sec)
    ensures t in Exec(s, t, sec, o).threads && (Exec(s, t, sec, o).threads[t] == Idle <==> MayEnd(s, sec, o))
  {
    hide AllPlaced, OracleFits, State.Free, Booked, HasMore, Opened, DoConnect, DoDisconnect, DoCloseAll, DoCloseEntry,
      DoCancelSessions, DoCloseSession, DoFinishClose, DoPrune;
  }

  lemma ClosingEnds(s: State, t: nat, sec: Section, o: Oracle)
    requires Executable(s, t, sec, o) && Closing(sec)
    ensures t in Exec(s, t, sec, o).threads && (Exec(s, t, sec, o).threads[t] == Idle ==> MayEnd(s, sec, o))
  {
    hide AllPlaced, OracleFits, State.Free;
  }

  lemma DetachingEnds(s: State, t: nat, sec: Section, o: Oracle)
    requires Executable(s, t, sec, o) && Detaching(sec) && AllPlaced(s)
    ensures t in Exec(s, t, sec, o).threads && (Exec(s, t, sec, o).threads[t] == Idle ==> MayEnd(s, sec, o))
  {
    hide Placed;
    if sec.CancelSessions? {
      forall n | n in s.live && n < |s.sessions| && !(sec.which.Some? && s.sessions[n].id != sec.which.value)
        ensures n in o.order
      {
        assert n in Matching(s, sec.which);
      }
    }
  }

  /** A call ends only for such a reason; and where it uses a connection or pages, always when there is one. */
  lemma WhyACallEnds(s: State, t: nat, o: Oracle)
    requires Reachable(s) && Enabled(s, Execute(t, o))
    ensures t in Next(s, Execute(t, o)).threads
    ensures Next(s, Execute(t, o)).threads[t] == Idle ==> MayEnd(s, s.threads[t].sec, o)
    ensures MayEnd(s, s.threads[t].sec, o) && !Detaching(s.threads[t].sec) && !Closing(s.threads[t].sec)
            ==> Next(s, Execute(t, o)).threads[t] == Idle
  {
    hide Inv, Reachable, Exec, Next, Executable, MayEnd, OracleFits, InRange;
    ReachableInv(s);
    ExecuteFacts(s, t, o);
    var sec := s.threads[t].sec;
    if Detaching(sec) {
      InvPlaces(s);
      DetachingEnds(s, t, sec, o);
    } else if Closing(sec) {
      ClosingEnds(s, t, sec, o);
    } else {
      UsingEnds(s, t, sec, o);
    }
  }

  lemma InvPlaces(s: State)
    requires Inv(s)
    ensures AllPlaced(s)
  {
    hide Mutex, Owned, Counted, Detached, Pending, Removed, Cookies, AllPlaced;
  }

  // --- A search that is over -----------------------------------------------------------------------

  /** The session is out of the map, or the thread is about to take it out. */
  ghost predicate Leaving(s: State, t: nat, n: nat) {
    t in s.threads && n < |s.sessions|
    && (n in s.live ==> !s.threads[t].Idle? && s.threads[t].sec == RemoveSession(n))
  }

  lemma NextEnding(s: State, m: Move, t: nat, n: nat)
    requires Inv(s) && Enabled(s, m) && Leaving(s, t, n) && (m.Begin? ==> m.t != t)
    ensures Leaving(Next(s, m), t, n)
  {
    NextFramed(s, m);
    hide Inv, OracleFits, InRange, Exec, Executable;
    if m.t == t && m.Execute? && n in s.live {
      ExecuteFacts(s, t, m.o);
      RemovalTakes(s, t, n, m.o);
    }
  }

  lemma RemovalTakes(s: State, t: nat, n: nat, o: Oracle)
    requires Executable(s, t, RemoveSession(n), o)
    ensures n !in Exec(s, t, RemoveSession(n), o).live
  {
    hide AllPlaced, OracleFits;
  }

  lemma {:induction false} RunEnding(s: State, moves: seq<Move>, s': State, t: nat, n: nat)
    requires Inv(s) && Reaches(s, moves, s') && NoBegin(moves, t) && Leaving(s, t, n)
    ensures Leaving(s', t, n)
    decreases |moves|
  {
    hide Inv, Next, Enabled, Leaving;
    if moves != [] {
      NextInv(s, moves[0]);
      NextEnding(s, moves[0], t, n);
      RunEnding(Next(s, moves[0]), moves[1..], s', t, n);
    }
  }

  /** The request finds the search over: an error, the last page, or the limit reached. */
  predicate Over(s: State, n: nat, o: Oracle)
    requires n < |s.sessions|
  {
    o.outcome != Fine || !HasMore(s.sessions[n].book, o.entries, o.cookie)
  }

  lemma OverLeaves(s: State, t: nat, n: nat, o: Oracle)

         requires t in s.threads && n < |s.sessions| && s.sessions[n].conn.Some? && s.sessions[n].conn.value < |s.issued| && Over(s, n, o)
    ensures Leaving(DoNextRequest(s, t, n, o), t, n)
  {
    hide Booked, HasMore;
  }

  lemma RequestIs(s: State, t: nat, n: nat, o: Oracle)
    requires Executable(s, t, NextRequest(n), o)
    ensures t in s.threads && n < |s.sessions| && s.sessions[n].conn.Some? && s.sessions[n].conn.value < |s.issued|
    ensures Exec(s, t, NextRequest(n), o) == DoNextRequest(s, t, n, o)
  {
    hide AllPlaced, OracleFits, TablesInRange, DoNextRequest;
  }

  lemma ExpiryIs(s: State, t: nat, n: nat, o: Oracle)
    requires Executable(s, t, NextCheck(n), o) && o.expired
    ensures n < |s.sessions| && Leaving(Exec(s, t, NextCheck(n), o), t, n)
  {
    hide AllPlaced, OracleFits, TablesInRange;
    assert Exec(s, t, NextCheck(n), o) == s.Go(t, Wait(RemoveSession(n)));
  }

  lemma OverIsEnding(s: State, t: nat, n: nat, o: Oracle)
    requires Inv(s) && Enabled(s, Execute(t, o)) && n < |s.sessions|
    requires (s.threads[t] == Run(NextRequest(n)) && Over(s, n, o)) || (s.threads[t] == Run(NextCheck(n)) && o.expired)
    ensures Leaving(Next(s, Execute(t, o)), t, n)
  {
    hide Inv, Next, Exec, Executable, Over, Leaving, DoNextRequest, InRange, OracleFits;
    ExecuteFacts(s, t, o);
    if s.threads[t] == Run(NextRequest(n)) {
      RequestIs(s, t, n, o);
      OverLeaves(s, t, n, o);
    } else {
      ExpiryIs(s, t, n, o);
    }
  }

  /** Once a search is over or expired, its session is out of the map when the call returns. */
  lemma EndedSearchLeavesTheMap(s1: State, t: nat, n: nat, o: Oracle, moves: seq<Move>, s: State)
    requires Reachable(s1) && Enabled(s1, Execute(t, o)) && n < |s1.sessions|
    requires (s1.threads[t] == Run(NextRequest(n)) && Over(s1, n, o)) || (s1.threads[t] == Run(NextCheck(n)) && o.expired)
    requires Reaches(Next(s1, Execute(t, o)), moves, s) && NoBegin(moves, t) && t in s.threads && s.threads[t] == Idle
    ensures n !in s.live
  {
    ReachableInv(s1);
    NextInv(s1, Execute(t, o));
    OverIsEnding(s1, t, n, o);
    hide Inv, Next, Enabled, Reachable, Reaches, Over;
    RunEnding(Next(s1, Execute(t, o)), moves, s, t, n);
  }
}
