/**
 The size limit of a paging session over the runs of ConnectionProtocol, with cancel, prune,
 reconnect and everything else at any step: backend/internal/ldapconn/search_sessions.go. The
 limit is kept when the calls on one session take turns, and not when two of them overlap.
 */
module SearchQuota {
  import opened Wrappers
  import opened ConnectionProtocol

  // --- Taking turns -----------------------------------------------------------------------

  /** The session a thread is paging: from having found it until it comes back from removing it. */
  function Paging(th: Thread): Option<nat> {
    if th.Idle? then None else
    match th.sec
    case NextCheck(n) => Some(n)
    case NextRequest(n) => Some(n)
    case RemoveSession(n) => Some(n)
    case _ => None
  }

  /** No two calls page the same session. */
  ghost predicate TakingTurns(s: State) {
    forall t, u ::
      (t in s.threads && u in s.threads && Paging(s.threads[t]).Some? && Paging(s.threads[t]) == Paging(s.threads[u]))
        ==> t == u
  }

  /** A run in which the calls on each session take turns, and anything else may happen at any step. */
  ghost predicate ReachesInTurns(s: State, moves: seq<Move>, s': State)
    decreases |moves|
  {
    TakingTurns(s)
    && if moves == [] then s' == s
       else Enabled(s, moves[0]) && ReachesInTurns(Next(s, moves[0]), moves[1..], s')
  }

  ghost predicate Reached(s: State) {
    exists s0, moves :: Init(s0) && ReachesInTurns(s0, moves, s)
  }

  // --- What every such run keeps -------------------------------------------------------------

  function Capped(answered: seq<Item>, limit: nat): seq<Item> {
    if limit == 0 || |answered| <= limit then answered else answered[..limit]
  }

  /** What was handed out is the front of what the server sent, as far as the limit allows; until
      the last page all of it, and with what remains it makes up the limit. */
  ghost predicate Kept(b: Book) {
    && b.delivered == Capped(b.answered, b.limit)
    && (b.limit == 0 ==> b.remaining == 0)
    && (!b.ended ==> b.delivered == b.answered && (b.limit > 0 ==> b.remaining > 0 && |b.delivered| + b.remaining == b.limit))
  }

  ghost predicate Ended(s: State, n: nat) {
    n < |s.sessions| && s.sessions[n].book.ended
  }

  ghost predicate HasPager(s: State, n: nat) {
    exists t :: t in s.threads && Paging(s.threads[t]) == Some(n)
  }

  /** After its last page a session is in the map only as long as the call that got the page has
      not removed it, and nobody asks for more. */
  ghost predicate Quota(s: State) {
    && (forall n :: 0 <= n < |s.sessions| ==> Kept(s.sessions[n].book))
    && (forall t :: t in s.threads && Paging(s.threads[t]).Some? ==> Paging(s.threads[t]).value < |s.sessions|)
    && (forall t :: t in s.threads && Paging(s.threads[t]).Some? && Ended(s, Paging(s.threads[t]).value)
          ==> s.threads[t].sec.RemoveSession?)
    && (forall n :: n in s.live ==> n < |s.sessions|)
    && (forall n :: n in s.live && Ended(s, n) ==> HasPager(s, n))
  }

  lemma BookKept(b: Book, entries: seq<Item>, cookie: Cookie)
    requires Kept(b) && !b.ended
    ensures Kept(Booked(b, entries, cookie))
    ensures Booked(b, entries, cookie).ended <==> !HasMore(b, entries, cookie)
  {
    var all := b.answered + entries;
    if b.limit > 0 && |entries| >= b.remaining {
      assert all[..b.limit] == b.delivered + entries[..b.remaining];
      assert |all| == b.limit ==> all[..b.limit] == all;
    }
  }

  // --- One step -----------------------------------------------------------------------------

  ghost predicate SameBooks(s: State, s': State) {
    |s'.sessions| == |s.sessions| && forall n :: 0 <= n < |s.sessions| ==> s'.sessions[n].book == s.sessions[n].book
  }

  /** A step of thread t, to the position th, that touches no book, lists no session, and leaves the
      paging of a session only when the session is out of the map. */
  ghost predicate Quiet(s: State, t: nat, th: Thread, s': State) {
    && t in s.threads && s'.threads == s.threads[t := th] && SameBooks(s, s') && s'.live <= s.live
    && (Paging(th).Some? ==> Paging(th) == Paging(s.threads[t]))
    && (Paging(th).Some? && s.threads[t].sec.RemoveSession? ==> th.sec.RemoveSession?)
    && (Paging(s.threads[t]).Some? && Paging(th) == None ==> Paging(s.threads[t]).value !in s'.live)
  }

  lemma QuietKeeps(s: State, t: nat, th: Thread, s': State)
    requires Quota(s) && Quiet(s, t, th, s')
    ensures Quota(s')
  {
    hide Kept, Paging;
    forall n | n in s'.live && Ended(s', n) ensures HasPager(s', n) {
      assert Ended(s, n);
      var u :| u in s.threads && Paging(s.threads[u]) == Some(n);
      assert Paging(s'.threads[u]) == Some(n);
    }
  }

  /** findSearchSession finds a session that is in the map. */
  lemma FindKeeps(s: State, t: nat, n: nat)
    requires Quota(s) && t in s.threads && Paging(s.threads[t]) == None && n in s.live
    requires TakingTurns(s.Go(t, Wait(NextCheck(n))))
    ensures Quota(s.Go(t, Wait(NextCheck(n))))
  {
    hide Kept;
    var s' := s.Go(t, Wait(NextCheck(n)));
    forall u | u in s.threads ensures Paging(s.threads[u]) != Some(n) {
      assert u != t ==> s'.threads[u] == s.threads[u] && Paging(s'.threads[t]) == Some(n);
    }
    forall m | m in s'.live && Ended(s', m) ensures HasPager(s', m) {
      var u :| u in s.threads && Paging(s.threads[u]) == Some(m);
      assert Paging(s'.threads[u]) == Some(m);
    }
  }

  lemma AddKeeps(s: State, t: nat, e: nat, c: nat, limit: nat)
    requires Quota(s) && t in s.threads && Paging(s.threads[t]) == None && e < |s.entries|
    ensures Quota(DoAddSession(s, t, e, c, limit))
  {
    var s' := DoAddSession(s, t, e, c, limit);
    if |s.live| >= MAX_SESSIONS {
      FullIsQuiet(s, t, e, c, limit);
      hide Quota;
      QuietKeeps(s, t, Idle, s');
    } else {
      assert Kept(Opened(limit));
      AddedKeeps(s, t, |s.sessions|, s');
    }
  }

  lemma FullIsQuiet(s: State, t: nat, e: nat, c: nat, limit: nat)
    requires t in s.threads && Paging(s.threads[t]) == None && e < |s.entries| && |s.live| >= MAX_SESSIONS
    ensures DoAddSession(s, t, e, c, limit).threads == s.threads[t := Idle]
    ensures Quiet(s, t, Idle, DoAddSession(s, t, e, c, limit))
  {
  }

  lemma AddedKeeps(s: State, t: nat, n: nat, s': State)
    requires Quota(s) && t in s.threads && n == |s.sessions| && |s'.sessions| == n + 1 && s'.live == s.live + {n}
    requires forall m :: 0 <= m < n ==> s'.sessions[m] == s.sessions[m]
    requires Kept(s'.sessions[n].book) && !s'.sessions[n].book.ended
    requires s'.threads == s.threads[t := Wait(NextCheck(n))] && Paging(s.threads[t]) == None
    ensures Quota(s')
  {
    hide Kept;
    forall m | m in s'.live && Ended(s', m) ensures HasPager(s', m) {
      assert m != n && Ended(s, m);
      var u :| u in s.threads && Paging(s.threads[u]) == Some(m);
      assert Paging(s'.threads[u]) == Some(m);
    }
  }

  /** The response to a request: the thread that asks is alone with the session. */
  lemma ResponseKeeps(s: State, t: nat, n: nat, o: Oracle)
    requires Quota(s) && TakingTurns(s) && t in s.threads && s.threads[t] == Run(NextRequest(n))
    requires n < |s.sessions| && s.sessions[n].conn.Some? && s.sessions[n].conn.value < |s.issued|
    ensures Quota(DoNextRequest(s, t, n, o)) && !Ended(s, n)
    ensures forall m :: 0 <= m < |s.sessions| && m != n ==> DoNextRequest(s, t, n, o).sessions[m] == s.sessions[m]
    ensures |DoNextRequest(s, t, n, o).sessions| == |s.sessions|
  {
    var s' := DoNextRequest(s, t, n, o);
    assert Paging(s.threads[t]) == Some(n);
    assert !Ended(s, n);
    if o.outcome != Fine {
      FailureIsQuiet(s, t, n);
      hide Quota, TakingTurns;
      QuietKeeps(s, t, Wait(RemoveSession(n)), s');
    } else {
      BookKept(s.sessions[n].book, o.entries, o.cookie);
      hide Booked, HasMore, Kept;
      AnsweredKeeps(s, t, n, s'.threads[t], s');
    }
  }

  lemma FailureIsQuiet(s: State, t: nat, n: nat)
    requires t in s.threads && s.threads[t] == Run(NextRequest(n))
    ensures Quiet(s, t, Wait(RemoveSession(n)), s.Go(t, Wait(RemoveSession(n))))
  {
  }

  lemma AnsweredKeeps(s: State, t: nat, n: nat, th: Thread, s': State)
    requires Quota(s) && TakingTurns(s) && t in s.threads && Paging(s.threads[t]) == Some(n) && n < |s.sessions|
    requires |s'.sessions| == |s.sessions| && s'.live == s.live && s'.threads == s.threads[t := th]
    requires forall m :: 0 <= m < |s.sessions| && m != n ==> s'.sessions[m] == s.sessions[m]
    requires Kept(s'.sessions[n].book)
    requires th == if s'.sessions[n].book.ended then Wait(RemoveSession(n)) else Idle
    ensures Quota(s')
  {
    hide Kept;
    forall u | u in s.threads && u != t ensures Paging(s.threads[u]) != Some(n) {
    }
    forall m | m in s'.live && Ended(s', m) ensures HasPager(s', m) {
      if m == n {
        assert Paging(s'.threads[t]) == Some(n);
      } else {
        assert Ended(s, m);
        var u :| u in s.threads && Paging(s.threads[u]) == Some(m);
        assert Paging(s'.threads[u]) == Some(m);
      }
    }
  }

  /** The sections that neither find, install nor page a session. */
  predicate Aside(sec: Section) {
    !sec.NextCheck? && !sec.NextRequest? && !sec.RemoveSession? && !sec.FindSession? && !sec.AddSession?
  }

  predicate Closing(sec: Section) {
    sec.CloseEntry? || sec.CancelSessions? || sec.CloseSession? || sec.FinishClose? || sec.Prune? || sec.CancelOne?
  }

  lemma ClosingIsQuiet(s: State, t: nat, sec: Section, o: Oracle)
    requires t in s.threads && s.threads[t] == Run(sec) && Closing(sec)
    requires TablesInRange(s) && InRange(s, sec) && OracleFits(s, sec, o)
    ensures Quiet(s, t, Exec(s, t, sec, o).threads[t], Exec(s, t, sec, o))
  {
    hide Quiet;
    match sec {
      case CloseEntry(es, cancel) => CloseEntryIsQuiet(s, t, es, cancel);
      case CancelSessions(which) => CancelIsQuiet(s, t, which, o.order);
      case CloseSession(ns, after) => CloseSessionIsQuiet(s, t, ns, after);
      case FinishClose(c, cookie, ns, after) => FinishIsQuiet(s, t, c, cookie, ns, after);
      case Prune(todo, expired, after) => PruneIsQuiet(s, t, todo, expired, after, o);
      case CancelOne(id, n) => CancelOneIsQuiet(s, t, id, n, n in s.live && s.sessions[n].id == id);
    }
  }

  lemma CloseEntryIsQuiet(s: State, t: nat, es: seq<nat>, cancel: Option<Id>)
    requires t in s.threads && s.threads[t] == Run(CloseEntry(es, cancel)) && es != [] && es[0] < |s.entries|
    ensures Quiet(s, t, DoCloseEntry(s, t, es, cancel).threads[t], DoCloseEntry(s, t, es, cancel))
  {
  }

  lemma CancelIsQuiet(s: State, t: nat, which: Option<Id>, order: seq<nat>)
    requires t in s.threads && s.threads[t] == Run(CancelSessions(which)) && TablesInRange(s)
    ensures Quiet(s, t, DoCancelSessions(s, t, which, order).threads[t], DoCancelSessions(s, t, which, order))
  {
  }

  lemma CloseSessionIsQuiet(s: State, t: nat, ns: seq<nat>, after: After)
    requires t in s.threads && s.threads[t] == Run(CloseSession(ns, after)) && ns != [] && ns[0] < |s.sessions|
    ensures Quiet(s, t, DoCloseSession(s, t, ns, after).threads[t], DoCloseSession(s, t, ns, after))
  {
  }

  lemma FinishIsQuiet(s: State, t: nat, c: nat, cookie: Cookie, ns: seq<nat>, after: After)
    requires t in s.threads && s.threads[t] == Run(FinishClose(c, cookie, ns, after))
    ensures Quiet(s, t, DoFinishClose(s, t, c, ns, after).threads[t], DoFinishClose(s, t, c, ns, after))
  {
  }

  lemma PruneIsQuiet(s: State, t: nat, todo: set<nat>, expired: seq<nat>, after: After, o: Oracle)
    requires t in s.threads && s.threads[t] == Run(Prune(todo, expired, after))
    ensures Quiet(s, t, DoPrune(s, t, todo, expired, after, o).threads[t], DoPrune(s, t, todo, expired, after, o))
  {
    hide State.Free;
  }

  lemma CancelOneIsQuiet(s: State, t: nat, id: Id, n: nat, wanted: bool)
    requires t in s.threads && s.threads[t] == Run(CancelOne(id, n))
    ensures Quiet(s, t, DoRemove(s, t, n, wanted).threads[t], DoRemove(s, t, n, wanted))
  {
  }

  /** The sections that use a shared or a dedicated connection. */
  predicate Using(sec: Section) {
    sec.SharedStart? || sec.CheckBeforeDial? || sec.DialShared? || sec.CheckAfterDial? || sec.Install? || sec.RunShared?
    || sec.DialDedicated? || sec.CheckDedicated? || sec.RunDedicated?
  }

  /** The step touches neither the sessions nor their map, and the thread pages nothing. */
  ghost predicate Apart(s: State, t: nat, s': State) {
    && t in s.threads && t in s'.threads && s'.threads == s.threads[t := s'.threads[t]]
    && s'.sessions == s.sessions && s'.live == s.live && Paging(s.threads[t]) == None && Paging(s'.threads[t]) == None
  }

  lemma ApartIsQuiet(s: State, t: nat, s': State)
    requires Apart(s, t, s')
    ensures Quiet(s, t, s'.threads[t], s')
  {
    hide Paging;
  }

  lemma UsingIsApart(s: State, t: nat, sec: Section, o: Oracle)
    requires t in s.threads && s.threads[t] == Run(sec) && Using(sec)
    requires TablesInRange(s) && InRange(s, sec) && OracleFits(s, sec, o)
    ensures Apart(s, t, Exec(s, t, sec, o))
  {
    hide Apart, TablesInRange, OracleFits;
    match sec {
      case SharedStart(e, attempt) => MoveIsApart(s, t, AfterSharedStart(s, e, attempt));
      case CheckBeforeDial(e, attempt) => MoveIsApart(s, t, if s.Current(e) then Run(DialShared(e, attempt)) else Idle);
      case DialShared(e, attempt) => DialIsApart(s, t, o.dialOk, Wait(CheckAfterDial(e, |s.issued|, attempt)), Idle);
      case CheckAfterDial(e, c, attempt) => CheckIsApart(s, t, e, c, Run(Install(e, c, attempt)));
      case Install(e, c, attempt) => InstallIsApart(s, t, e, c, attempt);
      case RunShared(e, attempt) => SharedIsApart(s, t, e, attempt, o.outcome);
      case DialDedicated(e, again) =>
        DialIsApart(s, t, o.dialOk, Wait(CheckDedicated(e, |s.issued|, again)),
                    if again then Idle else Wait(Lookup(s.entries[e].id, ForShared(First))));
      case CheckDedicated(e, c, again) => CheckIsApart(s, t, e, c, Run(RunDedicated(e, c, again)));
      case RunDedicated(e, c, again) => DedicatedIsApart(s, t, e, c, again, o.outcome);
    }
  }

  lemma MoveIsApart(s: State, t: nat, th: Thread)
    requires t in s.threads && Paging(s.threads[t]) == None && Paging(th) == None
    ensures Apart(s, t, s.Go(t, th))
  {
    hide Paging;
  }

  lemma DialIsApart(s: State, t: nat, dialOk: bool, dialled: Thread, failed: Thread)
    requires t in s.threads && Paging(s.threads[t]) == None && Paging(dialled) == None && Paging(failed) == None
    ensures Apart(s, t, DoDial(s, t, dialOk, dialled, failed))
  {
    hide Paging;
  }

  lemma CheckIsApart(s: State, t: nat, e: nat, c: nat, current: Thread)
    requires t in s.threads && Paging(s.threads[t]) == None && Paging(current) == None && e < |s.entries|
    ensures Apart(s, t, DoCheck(s, t, e, c, current))
  {
  }

  lemma InstallIsApart(s: State, t: nat, e: nat, c: nat, attempt: Attempt)
    requires t in s.threads && Paging(s.threads[t]) == None && e < |s.entries|
    ensures Apart(s, t, DoInstall(s, t, e, c, attempt))
  {
  }

  lemma SharedIsApart(s: State, t: nat, e: nat, attempt: Attempt, outcome: Outcome)
    requires t in s.threads && Paging(s.threads[t]) == None && e < |s.entries|
    ensures Apart(s, t, DoRunShared(s, t, e, attempt, outcome))
  {
  }

  lemma DedicatedIsApart(s: State, t: nat, e: nat, c: nat, again: bool, outcome: Outcome)
    requires t in s.threads && Paging(s.threads[t]) == None
    ensures Apart(s, t, DoRunDedicated(s, t, e, c, again, outcome))
  {
  }

  lemma UsingIsQuiet(s: State, t: nat, sec: Section, o: Oracle)
    requires t in s.threads && s.threads[t] == Run(sec) && Using(sec)
    requires TablesInRange(s) && InRange(s, sec) && OracleFits(s, sec, o)
    ensures Quiet(s, t, Exec(s, t, sec, o).threads[t], Exec(s, t, sec, o))
  {
    hide *;
    UsingIsApart(s, t, sec, o);
    ApartIsQuiet(s, t, Exec(s, t, sec, o));
  }

  lemma OthersAreApart(s: State, t: nat, sec: Section, o: Oracle)
    requires t in s.threads && s.threads[t] == Run(sec) && Aside(sec) && !Closing(sec) && !Using(sec)
    requires TablesInRange(s) && InRange(s, sec) && OracleFits(s, sec, o)
    ensures Apart(s, t, Exec(s, t, sec, o))
  {
  }

  lemma OthersAreQuiet(s: State, t: nat, sec: Section, o: Oracle)
    requires t in s.threads && s.threads[t] == Run(sec) && Aside(sec) && !Closing(sec) && !Using(sec)
    requires TablesInRange(s) && InRange(s, sec) && OracleFits(s, sec, o)
    ensures Quiet(s, t, Exec(s, t, sec, o).threads[t], Exec(s, t, sec, o))
  {
    hide *;
    OthersAreApart(s, t, sec, o);
    ApartIsQuiet(s, t, Exec(s, t, sec, o));
  }

  lemma RemovalIsQuiet(s: State, t: nat, n: nat)
    requires t in s.threads && s.threads[t] == Run(RemoveSession(n))
    ensures Quiet(s, t, DoRemove(s, t, n, true).threads[t], DoRemove(s, t, n, true))
  {
  }

  lemma CheckIsQuiet(s: State, t: nat, n: nat, expired: bool)
    requires t in s.threads && s.threads[t] == Run(NextCheck(n)) && n < |s.sessions|
    ensures Quiet(s, t, AfterNextCheck(s, n, expired), s.Go(t, AfterNextCheck(s, n, expired)))
  {
  }

  /** After a session's last page its book never changes. */
  ghost predicate EndedStays(s: State, s': State) {
    |s.sessions| <= |s'.sessions|
    && forall n :: 0 <= n < |s.sessions| && s.sessions[n].book.ended ==> s'.sessions[n].book == s.sessions[n].book
  }

  lemma ExecKeeps(s: State, t: nat, sec: Section, o: Oracle)
    requires Quota(s) && TakingTurns(s) && t in s.threads && s.threads[t] == Run(sec)
    requires TablesInRange(s) && InRange(s, sec) && OracleFits(s, sec, o) && TakingTurns(Exec(s, t, sec, o))
    ensures Quota(Exec(s, t, sec, o)) && EndedStays(s, Exec(s, t, sec, o))
  {
    var s' := Exec(s, t, sec, o);
    hide Quota, TakingTurns, Quiet;
    if Aside(sec) {
      if Closing(sec) {
        ClosingIsQuiet(s, t, sec, o);
      } else if Using(sec) {
        UsingIsQuiet(s, t, sec, o);
      } else {
        OthersAreQuiet(s, t, sec, o);
      }
      hide Exec;
      QuietStays(s, t, s'.threads[t], s');
    } else {
      PagingKeeps(s, t, sec, o);
    }
  }

  lemma QuietStays(s: State, t: nat, th: Thread, s': State)
    requires Quota(s) && Quiet(s, t, th, s')
    ensures Quota(s') && EndedStays(s, s')
  {
    QuietKeeps(s, t, th, s');
    hide Quota, Paging;
  }

  lemma PagingKeeps(s: State, t: nat, sec: Section, o: Oracle)
    requires Quota(s) && TakingTurns(s) && t in s.threads && s.threads[t] == Run(sec) && !Aside(sec)
    requires TablesInRange(s) && InRange(s, sec) && OracleFits(s, sec, o) && TakingTurns(Exec(s, t, sec, o))
    ensures Quota(Exec(s, t, sec, o)) && EndedStays(s, Exec(s, t, sec, o))
  {
    hide Quota, TakingTurns, Quiet;
    match sec {
      case NextCheck(n) =>
        CheckIsQuiet(s, t, n, o.expired);
        QuietStays(s, t, AfterNextCheck(s, n, o.expired), s.Go(t, AfterNextCheck(s, n, o.expired)));
      case NextRequest(n) =>
        ResponseKeeps(s, t, n, o);
      case RemoveSession(n) =>
        RemovalIsQuiet(s, t, n);
        QuietStays(s, t, DoRemove(s, t, n, true).threads[t], DoRemove(s, t, n, true));
      case FindSession(id, n) =>
        if n in s.live && s.sessions[n].id == id {
          FindKeeps(s, t, n);
        } else {
          MoveIsQuiet(s, t, Idle);
          QuietStays(s, t, Idle, s.Go(t, Idle));
        }
      case AddSession(e, c) =>
        AddKeeps(s, t, e, c, o.limit);
    }
  }

  lemma MoveIsQuiet(s: State, t: nat, th: Thread)
    requires t in s.threads && Paging(th) == Paging(s.threads[t])
    requires Paging(th).Some? && s.threads[t].sec.RemoveSession? ==> th.sec.RemoveSession?
    ensures Quiet(s, t, th, s.Go(t, th))
  {
  }

  lemma NextKeeps(s: State, m: Move)
    requires Quota(s) && TakingTurns(s) && Enabled(s, m) && TakingTurns(Next(s, m))
    ensures Quota(Next(s, m)) && EndedStays(s, Next(s, m))
  {
    hide Quota, TakingTurns, Exec, EndedStays, Quiet;
    match m {
      case Begin(t, op) =>
        MoveIsQuiet(s, t, Wait(Entry0(op)));
        QuietStays(s, t, Wait(Entry0(op)), s.Go(t, Wait(Entry0(op))));
      case Acquire(t) =>
        MoveIsQuiet(s, t, Run(s.threads[t].sec));
        QuietStays(s, t, Run(s.threads[t].sec), s.Go(t, Run(s.threads[t].sec)));
      case Execute(t, o) =>
        ExecKeeps(s, t, s.threads[t].sec, o);
    }
  }

  lemma InTurns(s: State, moves: seq<Move>, s': State)
    requires ReachesInTurns(s, moves, s')
    ensures TakingTurns(s)
  {
  }

  lemma {:induction false} RunKeeps(s: State, moves: seq<Move>, s': State)
    requires Quota(s) && ReachesInTurns(s, moves, s')
    ensures Quota(s') && EndedStays(s, s')
    decreases |moves|
  {
    hide Quota, TakingTurns, Next, Enabled, EndedStays;
    if moves == [] {
      Stays(s);
    } else {
      InTurns(Next(s, moves[0]), moves[1..], s');
      NextKeeps(s, moves[0]);
      RunKeeps(Next(s, moves[0]), moves[1..], s');
      StaysOn(s, Next(s, moves[0]), s');
    }
  }

  lemma Stays(s: State)
    ensures EndedStays(s, s)
  {
  }

  lemma StaysOn(s: State, s': State, s'': State)
    requires EndedStays(s, s') && EndedStays(s', s'')
    ensures EndedStays(s, s'')
  {
  }

  lemma InitQuota(s: State)
    requires Init(s)
    ensures Quota(s)
  {
  }

  lemma ReachedQuota(s: State)
    requires Reached(s)
    ensures Quota(s)
  {
    var s0, moves :| Init(s0) && ReachesInTurns(s0, moves, s);
    InitQuota(s0);
    hide Quota, Init;
    RunKeeps(s0, moves, s);
  }

  // --- The results ----------------------------------------------------------------------------

  /** Whatever interleaves with calls that take turns, a session has handed out exactly the front of
      what the server sent it, cut at the limit; before the last page nothing is held back, and what
      was handed out and what remains make up the limit. */
  lemma PagesStayWithinQuota(s: State, n: nat)
    requires Reached(s) && n < |s.sessions|
    ensures var b := s.sessions[n].book;
            && b.delivered == (if b.limit == 0 || |b.answered| <= b.limit then b.answered else b.answered[..b.limit])
            && (b.limit > 0 ==> |b.delivered| <= b.limit)
            && (!b.ended ==> b.delivered == b.answered)
            && (!b.ended && b.limit > 0 ==> |b.delivered| + b.remaining == b.limit)
  {
    ReachedQuota(s);
    hide Reached, Ended, HasPager, Paging;
  }

  /** Once a page without more to come has been handed out nothing is, whatever still happens. */
  lemma LastPageIsLast(s: State, n: nat, moves: seq<Move>, s': State)
    requires Reached(s) && n < |s.sessions| && s.sessions[n].book.ended && ReachesInTurns(s, moves, s')
    ensures n < |s'.sessions| && s'.sessions[n].book == s.sessions[n].book
  {
    ReachedQuota(s);
    hide Reached, Quota, ReachesInTurns;
    RunKeeps(s, moves, s');
  }

  // --- Overlapping calls ----------------------------------------------------------------------

  /** One more move at the end of a run. */
  lemma {:induction false} ReachesMore(s: State, moves: seq<Move>, s': State, m: Move)
    requires Reaches(s, moves, s') && Enabled(s', m)
    ensures Reaches(s, moves + [m], Next(s', m))
    decreases |moves|
  {
    hide Enabled, Next;
    if moves == [] {
      assert [] + [m] == [m] && [m][1..] == [];
    } else {
      ReachesMore(Next(s, moves[0]), moves[1..], s', m);
      assert (moves + [m])[0] == moves[0] && (moves + [m])[1..] == moves[1..] + [m];
    }
  }

  lemma {:induction false} ReachesOn(s: State, moves: seq<Move>, s': State, more: seq<Move>, s'': State)
    requires Reaches(s, moves, s') && Reaches(s', more, s'')
    ensures Reaches(s, moves + more, s'')
    decreases |more|
  {
    hide Enabled, Next;
    if more == [] {
      assert moves + [] == moves;
    } else {
      ReachesMore(s, moves, s', more[0]);
      ReachesOn(s, moves + [more[0]], Next(s', more[0]), more[1..], s'');
      assert moves + more == moves + [more[0]] + more[1..];
    }
  }

  /** A session that can be paged: in the map or not, open and with some of its limit left. */
  ghost predicate Pageable(s: State, n: nat) {
    && n < |s.sessions| && !s.sessions[n].closed && s.sessions[n].conn.Some? && s.sessions[n].conn.value < |s.issued|
    && s.Free(SessionMu(n))
  }

  const QUIET_ORACLE := Oracle(true, Fine, "", [], 0, false, 0, [])

  lemma AcquireOne(s: State, t: nat, sec: Section)
    requires t in s.threads && s.threads[t] == Wait(sec) && Entering(sec).Some? && s.Free(Entering(sec).value)
    ensures Enabled(s, Acquire(t)) && Next(s, Acquire(t)) == s.Go(t, Run(sec))
  {
    hide State.Free;
  }

  lemma CheckOne(s: State, t: nat, n: nat, o: Oracle)
    requires TablesInRange(s) && t in s.threads && s.threads[t] == Run(NextCheck(n)) && n < |s.sessions|
    requires !s.sessions[n].closed && s.sessions[n].conn.Some? && !o.expired
    ensures Enabled(s, Execute(t, o)) && Next(s, Execute(t, o)) == s.Go(t, Run(NextRequest(n)))
  {
  }

  lemma RequestOne(s: State, t: nat, n: nat, o: Oracle)
    requires TablesInRange(s) && t in s.threads && s.threads[t] == Run(NextRequest(n)) && n < |s.sessions|
    requires s.sessions[n].conn.Some? && s.sessions[n].conn.value < |s.issued|
    ensures Enabled(s, Execute(t, o)) && Next(s, Execute(t, o)) == DoNextRequest(s, t, n, o)
  {
    hide Booked, HasMore;
  }

  lemma ThreeMoves(s: State, a: Move, s1: State, b: Move, s2: State, c: Move, s3: State)
    requires Enabled(s, a) && Next(s, a) == s1 && Enabled(s1, b) && Next(s1, b) == s2 && Enabled(s2, c) && Next(s2, c) == s3
    ensures Reaches(s, [a, b, c], s3)
  {
    hide Enabled, Next;
    assert [a, b, c][1..] == [b, c] && [b, c][1..] == [c] && [c][1..] == [];
    Stop(s3);
    assert Reaches(s2, [c], s3) && Reaches(s1, [b, c], s3);
  }

  /** One whole page, from the wait for the session's lock: what it adds to the book. */
  lemma OnePage(s: State, t: nat, n: nat, entries: seq<Item>, cookie: Cookie) returns (moves: seq<Move>, s': State)
    requires TablesInRange(s) && t in s.threads && s.threads[t] == Wait(NextCheck(n)) && Pageable(s, n)
    ensures Reaches(s, moves, s') && TablesInRange(s')
    ensures |s'.sessions| == |s.sessions| && s'.sessions[n] == s.sessions[n].(cookie := cookie, book := Booked(s.sessions[n].book, entries, cookie))
    ensures s'.threads == s.threads[t := if HasMore(s.sessions[n].book, entries, cookie) then Idle else Wait(RemoveSession(n))]
    ensures |s'.issued| == |s.issued| && s'.table == s.table && s'.entries == s.entries && s'.live == s.live
  {
    hide Booked, HasMore, State.Free, Enabled, Next, Reaches;
    var o := QUIET_ORACLE.(entries := entries, cookie := cookie);
    var s1 := s.Go(t, Run(NextCheck(n)));
    var s2 := s1.Go(t, Run(NextRequest(n)));
    s' := DoNextRequest(s2, t, n, o);
    moves := [Acquire(t), Execute(t, o), Execute(t, o)];
    AcquireOne(s, t, NextCheck(n));
    CheckOne(s1, t, n, o);
    RequestOne(s2, t, n, o);
    ThreeMoves(s, Acquire(t), s1, Execute(t, o), s2, Execute(t, o), s');
  }

  lemma Stop(s: State)
    ensures Reaches(s, [], s)
  {
  }

  lemma StillFree(s: State, s': State, t: nat, th: Thread, l: Lock)
    requires t in s.threads && s.Free(l) && s'.threads == s.threads[t := th] && Holds(th) == {}
    ensures s'.Free(l)
  {
    hide Holds;
  }

  /** removeAndCloseSearchSession, up to the wait for the session's own lock. */
  lemma RemoveOne(s: State, t: nat, n: nat) returns (moves: seq<Move>, s': State, th: Thread)
    requires TablesInRange(s) && t in s.threads && s.threads[t] == Wait(RemoveSession(n)) && s.Free(SessionsMu)
    ensures Reaches(s, moves, s') && TablesInRange(s') && s'.threads == s.threads[t := th] && Holds(th) == {}
    ensures s'.sessions == s.sessions && s'.issued == s.issued && n !in s'.live && Paging(th) == None
  {
    var s1 := s.Go(t, Run(RemoveSession(n)));
    s' := DoRemove(s1, t, n, true);
    th := s'.threads[t];
    moves := [Acquire(t), Execute(t, QUIET_ORACLE)];
    AcquireOne(s, t, RemoveSession(n));
    assert Enabled(s1, Execute(t, QUIET_ORACLE)) && Next(s1, Execute(t, QUIET_ORACLE)) == s';
    hide Enabled, Next, State.Free;
    TwoMoves(s, Acquire(t), s1, Execute(t, QUIET_ORACLE), s');
  }

  lemma TwoMoves(s: State, a: Move, s1: State, b: Move, s2: State)
    requires Enabled(s, a) && Next(s, a) == s1 && Enabled(s1, b) && Next(s1, b) == s2
    ensures Reaches(s, [a, b], s2)
  {
    hide Enabled, Next;
    assert [a, b][1..] == [b] && [b][1..] == [];
    Stop(s2);
    assert Reaches(s1, [b], s2);
  }

  lemma Overdrawn(b: Book, entries: seq<Item>, more: seq<Item>)
    requires b.limit > 0 && b.remaining > 0 && |b.delivered| + b.remaining == b.limit
    requires |entries| == b.remaining && |more| > 0
    ensures !HasMore(b, entries, "x") && |Booked(Booked(b, entries, "x"), more, "x").delivered| == b.limit + |more|
  {
  }

  /** Wherever two calls have found the same open session with a limit, the run can go on so that
      more is handed out than the limit allows. The first call cuts its page and takes the session
      out of the map; but the second has found it before, checks it before it is closed, and for
      that call there is no limit any more. At no time are both between check and removal. */
  lemma OverlapOverdraws(s: State, t: nat, u: nat, n: nat) returns (moves: seq<Move>, s': State)
    requires TablesInRange(s) && t in s.threads && u in s.threads && t != u && Pageable(s, n) && s.Free(SessionsMu)
    requires s.threads[t] == Wait(NextCheck(n)) && s.threads[u] == Wait(NextCheck(n))
    requires Kept(s.sessions[n].book) && !s.sessions[n].book.ended && s.sessions[n].book.limit > 0
    ensures Reaches(s, moves, s') && |s'.sessions| == |s.sessions| && n < |s'.sessions| && n !in s'.live
    ensures s'.sessions[n].book.limit == s.sessions[n].book.limit < |s'.sessions[n].book.delivered|
  {
    var b := s.sessions[n].book;
    var page: seq<Item> := seq(b.remaining, i => "");
    Overdrawn(b, page, [""]);
    LimitStays(b, page, "x");
    LimitStays(Booked(b, page, "x"), [""], "x");
    assert Holds(Wait(RemoveSession(n))) == {};
    hide Kept, Booked, HasMore, Reaches, State.Free, Holds;
    var first, s1 := OnePage(s, t, n, page, "x");
    StillFree(s, s1, t, Wait(RemoveSession(n)), SessionMu(n));
    StillFree(s, s1, t, Wait(RemoveSession(n)), SessionsMu);
    var removal, s2, th := RemoveOne(s1, t, n);
    StillFree(s1, s2, t, th, SessionMu(n));
    var second: seq<Move>;
    second, s' := OnePage(s2, u, n, [""], "x");
    ReachesOn(s, first, s1, removal, s2);
    ReachesOn(s, first + removal, s2, second, s');
    moves := first + removal + second;
  }

  lemma LimitStays(b: Book, entries: seq<Item>, cookie: Cookie)
    ensures Booked(b, entries, cookie).limit == b.limit
  {
  }

  // --- A run in which two calls overlap ---------------------------------------------------------

  /** Two threads, the one at a and the other at b. */
  function Two(d: State, t: nat, a: Thread, b: Thread): State
    requires t < 2
  {
    d.(threads := map[t := a, 1 - t := b])
  }

  lemma TwoGo(d: State, t: nat, a: Thread, b: Thread, th: Thread)
    requires t < 2
    ensures Two(d, t, a, b).Go(t, th) == Two(d, t, th, b)
    ensures t in Two(d, t, a, b).threads && Two(d, t, a, b).threads[t] == a
  {
  }

  lemma TwoTurn(d: State, t: nat, a: Thread, b: Thread)
    requires t < 2
    ensures Two(d, t, a, b) == Two(d, 1 - t, b, a)
  {
  }

  /** The section takes thread t to the position th, and the data from d to d'. */
  ghost predicate Does(d: State, t: nat, sec: Section, b: Thread, o: Oracle, d': State, th: Thread) {
    t < 2
    && var s := Two(d, t, Run(sec), b);
    TablesInRange(s) && InRange(s, sec) && OracleFits(s, sec, o) && Exec(s, t, sec, o) == Two(d', t, th, b)
  }

  /** The section begins with taking its one lock. */
  predicate Locks(sec: Section) {
    Carried(sec) == {} && Entering(sec).Some?
  }

  lemma LockFree(d: State, t: nat, sec: Section, b: Thread)
    requires t < 2 && Locks(sec) && Holds(b) == {}
    ensures Two(d, t, Wait(sec), b).Free(Entering(sec).value)
  {
    hide Carried, Entering;
    assert Holds(Wait(sec)) == {} by {
      NothingCarried(sec);
    }
    hide Holds;
  }

  lemma NothingCarried(sec: Section)
    requires Carried(sec) == {}
    ensures Holds(Wait(sec)) == {}
  {
    hide Carried;
  }

  lemma RunOne(s0: State, moves: seq<Move>, d: State, t: nat, sec: Section, b: Thread, o: Oracle, d': State, th: Thread)
    returns (more: seq<Move>)
    requires Does(d, t, sec, b, o, d', th) && Reaches(s0, moves, Two(d, t, Run(sec), b))
    ensures Reaches(s0, more, Two(d', t, th, b))
  {
    var s := Two(d, t, Run(sec), b);
    DoesNext(d, t, sec, b, o, d', th);
    hide *;
    ReachesMore(s0, moves, s, Execute(t, o));
    more := moves + [Execute(t, o)];
  }

  lemma DoesNext(d: State, t: nat, sec: Section, b: Thread, o: Oracle, d': State, th: Thread)
    requires Does(d, t, sec, b, o, d', th)
    ensures var s := Two(d, t, Run(sec), b); Enabled(s, Execute(t, o)) && Next(s, Execute(t, o)) == Two(d', t, th, b)
  {
    TwoGo(d, t, Run(sec), b, th);
    hide Exec, InRange, OracleFits, TablesInRange, Two;
  }

  /** A thread waits for a lock nobody holds, and runs the section. */
  lemma EnterOne(s0: State, moves: seq<Move>, d: State, t: nat, sec: Section, b: Thread, o: Oracle, d': State, th: Thread)
    returns (more: seq<Move>)
    requires Does(d, t, sec, b, o, d', th) && Locks(sec) && Holds(b) == {}
    requires Reaches(s0, moves, Two(d, t, Wait(sec), b))
    ensures Reaches(s0, more, Two(d', t, th, b))
  {
    assert t < 2 && Entering(sec).Some?;
    hide *;
    var s := Two(d, t, Wait(sec), b);
    LockFree(d, t, sec, b);
    TwoGo(d, t, Wait(sec), b, Run(sec));
    AcquireOne(s, t, sec);
    ReachesMore(s0, moves, s, Acquire(t));
    more := RunOne(s0, moves + [Acquire(t)], d, t, sec, b, o, d', th);
  }

  lemma BeginOne(s0: State, moves: seq<Move>, d: State, t: nat, op: Op, b: Thread) returns (more: seq<Move>)
    requires t < 2 && Reaches(s0, moves, Two(d, t, Idle, b))
    ensures Reaches(s0, more, Two(d, t, Wait(Entry0(op)), b))
  {
    hide Reaches, Entry0, Two;
    var s := Two(d, t, Idle, b);
    TwoGo(d, t, Idle, b, Wait(Entry0(op)));
    assert Enabled(s, Begin(t, op)) && Next(s, Begin(t, op)) == s.Go(t, Wait(Entry0(op)));
    ReachesMore(s0, moves, s, Begin(t, op));
    more := moves + [Begin(t, op)];
  }

  const NOTHING := State(map[], [], {}, [], map[], map[], multiset{}, [])

  const CONNECTED := NOTHING.(table := map["c" := 0], entries := [Entry("c", "k", None)])

  const DIALLED := CONNECTED.(owner := map[0 := ByThread(0)], issued := [""])

  const LISTED := DIALLED.(sessions := [Session("c", Some(0), "", false, Opened(2))], live := {0},
                           owner := map[0 := BySession(0)])

  lemma ConnectDoes()
    ensures Does(NOTHING, 0, ConnectTable("c", "k"), Idle, QUIET_ORACLE, CONNECTED, Wait(CancelSessions(Some("c"))))
    ensures Locks(ConnectTable("c", "k"))
  {
    var s := Two(NOTHING, 0, Run(ConnectTable("c", "k")), Idle);
    TwoGo(CONNECTED, 0, Run(ConnectTable("c", "k")), Idle, Wait(CancelSessions(Some("c"))));
  }

  lemma CancelDoes()
    ensures Does(CONNECTED, 0, CancelSessions(Some("c")), Idle, QUIET_ORACLE, CONNECTED, Idle)
    ensures Locks(CancelSessions(Some("c")))
  {
    TwoGo(CONNECTED, 0, Run(CancelSessions(Some("c"))), Idle, Idle);
    assert Matching(Two(CONNECTED, 0, Run(CancelSessions(Some("c"))), Idle), Some("c")) == {};
  }

  lemma LookupDoes()
    ensures Does(CONNECTED, 0, Lookup("c", ForSearch), Idle, QUIET_ORACLE, CONNECTED, Wait(Snapshot(0, ForSearch)))
    ensures Locks(Lookup("c", ForSearch))
  {
    TwoGo(CONNECTED, 0, Run(Lookup("c", ForSearch)), Idle, Wait(Snapshot(0, ForSearch)));
  }

  lemma SnapshotDoes()
    ensures Does(CONNECTED, 0, Snapshot(0, ForSearch), Idle, QUIET_ORACLE, CONNECTED, Wait(PruneBegin(ThenStart(0))))
    ensures Locks(Snapshot(0, ForSearch))
  {
    TwoGo(CONNECTED, 0, Run(Snapshot(0, ForSearch)), Idle, Wait(PruneBegin(ThenStart(0))));
  }

  lemma PruneDoes()
    ensures Does(CONNECTED, 0, PruneBegin(ThenStart(0)), Idle, QUIET_ORACLE, CONNECTED, Run(Prune({}, [], ThenStart(0))))
    ensures Does(CONNECTED, 0, Prune({}, [], ThenStart(0)), Idle, QUIET_ORACLE, CONNECTED, Wait(CountSessions(0)))
    ensures Locks(PruneBegin(ThenStart(0)))
  {
    TwoGo(CONNECTED, 0, Run(PruneBegin(ThenStart(0))), Idle, Run(Prune({}, [], ThenStart(0))));
    TwoGo(CONNECTED, 0, Run(Prune({}, [], ThenStart(0))), Idle, Wait(CountSessions(0)));
  }

  lemma CountDoes()
    ensures Does(CONNECTED, 0, CountSessions(0), Idle, QUIET_ORACLE, CONNECTED, Run(DialSession(0)))
    ensures Locks(CountSessions(0))
  {
    TwoGo(CONNECTED, 0, Run(CountSessions(0)), Idle, Run(DialSession(0)));
  }

  lemma DialDoes()
    ensures Does(CONNECTED, 0, DialSession(0), Idle, QUIET_ORACLE, DIALLED, Wait(CheckSession(0, 0)))
  {
    TwoGo(DIALLED, 0, Run(DialSession(0)), Idle, Wait(CheckSession(0, 0)));
  }

  lemma CheckDoes()
    ensures Does(DIALLED, 0, CheckSession(0, 0), Idle, QUIET_ORACLE, DIALLED, Wait(AddSession(0, 0)))
    ensures Locks(CheckSession(0, 0))
  {
    TwoGo(DIALLED, 0, Run(CheckSession(0, 0)), Idle, Wait(AddSession(0, 0)));
  }

  lemma AddDoes()
    ensures Does(DIALLED, 0, AddSession(0, 0), Idle, QUIET_ORACLE.(limit := 2), LISTED, Wait(NextCheck(0)))
    ensures Locks(AddSession(0, 0))
  {
    TwoGo(LISTED, 0, Run(AddSession(0, 0)), Idle, Wait(NextCheck(0)));
  }

  /** One connection is configured. */
  lemma ConnectRun() returns (moves: seq<Move>)
    ensures Reaches(Two(NOTHING, 0, Idle, Idle), moves, Two(CONNECTED, 0, Idle, Idle))
  {
    var o := QUIET_ORACLE;
    assert Holds(Idle) == {} && Entry0(OpConnect("c", "k")) == ConnectTable("c", "k");
    hide *;
    var s0 := Two(NOTHING, 0, Idle, Idle);
    Stop(s0);
    moves := BeginOne(s0, [], NOTHING, 0, OpConnect("c", "k"), Idle);
    ConnectDoes();
    moves := EnterOne(s0, moves, NOTHING, 0, ConnectTable("c", "k"), Idle, o, CONNECTED, Wait(CancelSessions(Some("c"))));
    CancelDoes();
    moves := EnterOne(s0, moves, CONNECTED, 0, CancelSessions(Some("c")), Idle, o, CONNECTED, Idle);
  }

  /** A search with a limit of two is started, up to the wait for its first page. */
  lemma StartRun(s0: State, before: seq<Move>) returns (moves: seq<Move>)
    requires Reaches(s0, before, Two(CONNECTED, 0, Idle, Idle))
    ensures Reaches(s0, moves, Two(CONNECTED, 0, Run(DialSession(0)), Idle))
  {
    var o := QUIET_ORACLE;
    assert Holds(Idle) == {} && Entry0(OpSearchStart("c")) == Lookup("c", ForSearch);
    hide *;
    moves := BeginOne(s0, before, CONNECTED, 0, OpSearchStart("c"), Idle);
    LookupDoes();
    moves := EnterOne(s0, moves, CONNECTED, 0, Lookup("c", ForSearch), Idle, o, CONNECTED, Wait(Snapshot(0, ForSearch)));
    SnapshotDoes();
    moves := EnterOne(s0, moves, CONNECTED, 0, Snapshot(0, ForSearch), Idle, o, CONNECTED, Wait(PruneBegin(ThenStart(0))));
    PruneDoes();
    moves := EnterOne(s0, moves, CONNECTED, 0, PruneBegin(ThenStart(0)), Idle, o, CONNECTED, Run(Prune({}, [], ThenStart(0))));
    moves := RunOne(s0, moves, CONNECTED, 0, Prune({}, [], ThenStart(0)), Idle, o, CONNECTED, Wait(CountSessions(0)));
    CountDoes();
    moves := EnterOne(s0, moves, CONNECTED, 0, CountSessions(0), Idle, o, CONNECTED, Run(DialSession(0)));
  }

  lemma ListRun(s0: State, before: seq<Move>) returns (moves: seq<Move>)
    requires Reaches(s0, before, Two(CONNECTED, 0, Run(DialSession(0)), Idle))
    ensures Reaches(s0, moves, Two(LISTED, 0, Wait(NextCheck(0)), Idle))
  {
    var o := QUIET_ORACLE;
    assert Holds(Idle) == {};
    hide *;
    DialDoes();
    moves := RunOne(s0, before, CONNECTED, 0, DialSession(0), Idle, o, DIALLED, Wait(CheckSession(0, 0)));
    CheckDoes();
    moves := EnterOne(s0, moves, DIALLED, 0, CheckSession(0, 0), Idle, o, DIALLED, Wait(AddSession(0, 0)));
    AddDoes();
    moves := EnterOne(s0, moves, DIALLED, 0, AddSession(0, 0), Idle, o.(limit := 2), LISTED, Wait(NextCheck(0)));
  }

  /** The search has handed out a page and may be asked for more. */
  ghost predicate Ready(d: State) {
    && TablesInRange(d) && d.live == {0} && |d.sessions| == 1 && |d.issued| == 1
    && d.sessions[0].id == "c" && d.sessions[0].conn == Some(0) && !d.sessions[0].closed
    && Kept(d.sessions[0].book) && !d.sessions[0].book.ended && d.sessions[0].book.limit > 0
  }

  lemma SampleBook()
    ensures HasMore(Opened(2), ["a"], "x")
    ensures var b := Booked(Opened(2), ["a"], "x"); Kept(b) && !b.ended && b.limit == 2
  {
  }

  lemma ListedIsPageable()
    ensures var s := Two(LISTED, 0, Wait(NextCheck(0)), Idle);
            Pageable(s, 0) && TablesInRange(s) && 0 in s.threads && s.threads[0] == Wait(NextCheck(0))
  {
    TwoGo(LISTED, 0, Wait(NextCheck(0)), Idle, Idle);
  }

  lemma PagedIsReady(s: State)
    requires TablesInRange(s) && s.live == {0} && |s.sessions| == 1 && |s.issued| == 1
    requires s.sessions[0] == Session("c", Some(0), "x", false, Booked(Opened(2), ["a"], "x"))
    ensures Ready(s)
  {
    SampleBook();
    hide Booked, Kept;
  }

  /** The first page is there: one entry of two. */
  lemma FirstPage() returns (moves: seq<Move>, d: State)
    ensures Reaches(Two(NOTHING, 0, Idle, Idle), moves, Two(d, 0, Idle, Idle)) && Ready(d)
  {
    var s0 := Two(NOTHING, 0, Idle, Idle);
    var s1 := Two(LISTED, 0, Wait(NextCheck(0)), Idle);
    assert |s1.sessions| == 1 && s1.sessions[0] == Session("c", Some(0), "", false, Opened(2)) && |s1.issued| == 1 && s1.live == {0};
    hide *;
    ListedIsPageable();
    SampleBook();
    moves := ConnectRun();
    moves := StartRun(s0, moves);
    moves := ListRun(s0, moves);
    var page, s2 := OnePage(s1, 0, 0, ["a"], "x");
    ReachesOn(s0, moves, s1, page, s2);
    moves, d := moves + page, s2;
    PagedIsReady(s2);
    IsTwo(s1, s2);
  }

  lemma IsTwo(s1: State, s2: State)
    requires s1 == Two(LISTED, 0, Wait(NextCheck(0)), Idle) && s2.threads == s1.threads[0 := Idle]
    ensures s2 == Two(s2, 0, Idle, Idle)
  {
  }

  lemma NextPruneDoes(d: State, t: nat, b: Thread)
    requires t < 2 && Ready(d)
    ensures Does(d, t, PruneBegin(ThenFind("c", 0)), b, QUIET_ORACLE, d, Run(Prune({0}, [], ThenFind("c", 0))))
    ensures Locks(PruneBegin(ThenFind("c", 0)))
  {
    hide Kept;
    TwoGo(d, t, Run(PruneBegin(ThenFind("c", 0))), b, Run(Prune({0}, [], ThenFind("c", 0))));
  }

  lemma PruneTurnDoes(d: State, t: nat, b: Thread)
    requires t < 2 && Ready(d)
    ensures Does(d, t, Prune({0}, [], ThenFind("c", 0)), b, QUIET_ORACLE, d, Run(Prune({}, [], ThenFind("c", 0))))
  {
    hide Kept, State.Free;
    assert {0} - {0} == {};
    TwoGo(d, t, Run(Prune({0}, [], ThenFind("c", 0))), b, Run(Prune({}, [], ThenFind("c", 0))));
  }

  lemma PruneEndDoes(d: State, t: nat, b: Thread)
    requires t < 2 && Ready(d)
    ensures Does(d, t, Prune({}, [], ThenFind("c", 0)), b, QUIET_ORACLE, d, Wait(FindSession("c", 0)))
  {
    hide Kept, State.Free;
    TwoGo(d, t, Run(Prune({}, [], ThenFind("c", 0))), b, Wait(FindSession("c", 0)));
  }

  lemma FindDoes(d: State, t: nat, b: Thread)
    requires t < 2 && Ready(d)
    ensures Does(d, t, FindSession("c", 0), b, QUIET_ORACLE, d, Wait(NextCheck(0)))
    ensures Locks(FindSession("c", 0))
  {
    hide Kept;
    TwoGo(d, t, Run(FindSession("c", 0)), b, Wait(NextCheck(0)));
  }

  /** A call for the next page, up to the wait for the session's lock. */
  lemma FindRun(s0: State, before: seq<Move>, d: State, t: nat, b: Thread) returns (moves: seq<Move>)
    requires t < 2 && Ready(d) && Holds(b) == {} && Reaches(s0, before, Two(d, t, Idle, b))
    ensures Reaches(s0, moves, Two(d, t, Wait(NextCheck(0)), b))
  {
    var o := QUIET_ORACLE;
    var after := ThenFind("c", 0);
    assert Entry0(OpSearchNext("c", 0)) == PruneBegin(after);
    hide *;
    moves := BeginOne(s0, before, d, t, OpSearchNext("c", 0), b);
    NextPruneDoes(d, t, b);
    moves := EnterOne(s0, moves, d, t, PruneBegin(after), b, o, d, Run(Prune({0}, [], after)));
    PruneTurnDoes(d, t, b);
    moves := RunOne(s0, moves, d, t, Prune({0}, [], after), b, o, d, Run(Prune({}, [], after)));
    PruneEndDoes(d, t, b);
    moves := RunOne(s0, moves, d, t, Prune({}, [], after), b, o, d, Wait(FindSession("c", 0)));
    FindDoes(d, t, b);
    moves := EnterOne(s0, moves, d, t, FindSession("c", 0), b, o, d, Wait(NextCheck(0)));
  }

  lemma BothFound(d: State)
    requires Ready(d)
    ensures var s := Two(d, 1, Wait(NextCheck(0)), Wait(NextCheck(0)));
            && TablesInRange(s) && Pageable(s, 0) && s.Free(SessionsMu) && 0 in s.threads && 1 in s.threads
            && s.threads[0] == Wait(NextCheck(0)) == s.threads[1] && s.sessions == d.sessions
            && Kept(d.sessions[0].book) && !d.sessions[0].book.ended && d.sessions[0].book.limit > 0 && |d.sessions| == 1
  {
    hide Kept;
  }

  lemma StartIsInit()
    ensures Init(Two(NOTHING, 0, Idle, Idle))
  {
  }

  /** The limit does need the calls to take turns: from a fresh service, two overlapping calls for
      the next page hand out more than was asked for. */
  lemma OverlapReached() returns (s0: State, moves: seq<Move>, s': State)
    ensures Init(s0) && Reaches(s0, moves, s')
    ensures |s'.sessions| == 1 && 0 < s'.sessions[0].book.limit < |s'.sessions[0].book.delivered|
  {
    var waiting := Wait(NextCheck(0));
    assert Holds(waiting) == {} && Holds(Idle) == {};
    hide *;
    s0 := Two(NOTHING, 0, Idle, Idle);
    StartIsInit();
    var d: State;
    moves, d := FirstPage();
    moves := FindRun(s0, moves, d, 0, Idle);
    TwoTurn(d, 0, waiting, Idle);
    moves := FindRun(s0, moves, d, 1, waiting);
    BothFound(d);
    var s := Two(d, 1, waiting, waiting);
    var more: seq<Move>;
    more, s' := OverlapOverdraws(s, 0, 1, 0);
    ReachesOn(s0, moves, s, more, s');
    moves := moves + more;
  }
}
